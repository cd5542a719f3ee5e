// Building a hardware key's certificate path: a byte scanner that reads the two common names
// out of a certificate, and the walk from one certificate to the bundled one that issued it.

module AttestationChain {
  import opened Prelude

  type Byte = x: int | 0 <= x < 256

  /** The object identifier 2.5.4.3, tagged and with its length. */
  const OID_CN: seq<Byte> := [0x06, 0x03, 0x55, 0x04, 0x03]

  /** Text of a UTF-8 run of bytes, or nothing when it is not UTF-8. */
  type Decoder = seq<Byte> -> Option<string>

  // ---- what a common name is -----------------------------------------------

  /** The identifier, a string tag and a short-form length stand at `i`. */
  predicate CnAt(der: seq<Byte>, i: int)
  {
    && 0 <= i && i + 7 <= |der| && der[i..i + 5] == OID_CN
    && der[i + 5] in {0x0c, 0x13, 0x16} && der[i + 6] < 0x80
  }

  /** One past the last byte the common name at `i` says it has. */
  function EndOf(der: seq<Byte>, i: int): (r: int)
    requires CnAt(der, i)
    ensures i < r
  {
    i + 7 + der[i + 6]
  }

  /** A match starts at `i`: one stands there, and no earlier match covers it. */
  ghost predicate Starts(der: seq<Byte>, i: int)
    decreases i
  {
    CnAt(der, i) && forall s | 0 <= s < i && Starts(der, s) :: EndOf(der, s) <= i
  }

  function TextAt(decode: Decoder, der: seq<Byte>, i: int): seq<string>
    requires CnAt(der, i)
  {
    if EndOf(der, i) <= |der| && decode(der[i + 7..EndOf(der, i)]).Some?
    then [decode(der[i + 7..EndOf(der, i)]).value] else []
  }

  /** The names of the matches starting before `n`, left to right. */
  ghost function NamesBefore(decode: Decoder, der: seq<Byte>, n: nat): seq<string>
  {
    if n == 0 then []
    else NamesBefore(decode, der, n - 1) + if Starts(der, n - 1) then TextAt(decode, der, n - 1) else []
  }

  ghost function Names(decode: Decoder, der: seq<Byte>): seq<string>
  {
    NamesBefore(decode, der, |der|)
  }

  /** No match starts in `[lo, hi)`. */
  ghost predicate NoneIn(der: seq<Byte>, lo: int, hi: int)
    decreases hi - lo
  {
    lo >= hi || (!Starts(der, hi - 1) && NoneIn(der, lo, hi - 1))
  }

  lemma {:induction false} NoneInByAll(der: seq<Byte>, lo: int, hi: int)
    requires forall i | lo <= i < hi :: !Starts(der, i)
    ensures NoneIn(der, lo, hi)
    decreases hi - lo
  {
    if lo < hi {
      NoneInByAll(der, lo, hi - 1);
    }
  }

  /** Nothing starts in `[lo, hi)`, so the names before both ends are the same. */
  lemma {:induction false} NothingBetween(decode: Decoder, der: seq<Byte>, lo: nat, hi: nat)
    requires lo <= hi && NoneIn(der, lo, hi)
    ensures NamesBefore(decode, der, hi) == NamesBefore(decode, der, lo)
    decreases hi
  {
    if lo < hi {
      NothingBetween(decode, der, lo, hi - 1);
    }
  }

  /** Every match before `i` ends by `i`. */
  ghost predicate Clear(der: seq<Byte>, i: int)
  {
    forall s | 0 <= s < i && Starts(der, s) :: EndOf(der, s) <= i
  }

  lemma ClearAfterMatch(der: seq<Byte>, i: int)
    requires CnAt(der, i) && Clear(der, i)
    ensures Starts(der, i) && Clear(der, EndOf(der, i))
    ensures NoneIn(der, i + 1, EndOf(der, i))
  {
    assert Starts(der, i);
    NoneInByAll(der, i + 1, EndOf(der, i));
  }

  /** Nothing starts where no seven bytes are left. */
  lemma TooShort(der: seq<Byte>, lo: int, hi: int)
    requires lo + 7 > |der|
    ensures NoneIn(der, lo, hi)
  {
    NoneInByAll(der, lo, hi);
  }

  /** The scanner: the first common name is the issuer's and the second the subject's. */
  method CertCns(decode: Decoder, der: seq<Byte>) returns (r: Option<(string, string)>)
    ensures r == IssuerAndSubject(Names(decode, der))
  {
    var cns: seq<string> := [];
    var i := 0;
    while i + 7 <= |der|
      invariant 0 <= i && Clear(der, i)
      invariant cns == NamesBefore(decode, der, i)
    {
      if der[i..i + 5] == OID_CN {
        var tag, len := der[i + 5], der[i + 6];
        if (tag == 0x0c || tag == 0x13 || tag == 0x16) && len < 0x80 {
          var start := i + 7;
          ClearAfterMatch(der, i);
          NothingBetween(decode, der, i + 1, start + len);
          if start + len <= |der| {
            var text := decode(der[start..start + len]);
            if text.Some? {
              cns := cns + [text.value];
            }
          }
          i := start + len;
          continue;
        }
      }
      assert !Starts(der, i);
      i := i + 1;
    }
    TooShort(der, i, |der|);
    TooShort(der, |der|, i);
    if i <= |der| {
      NothingBetween(decode, der, i, |der|);
    } else {
      NothingBetween(decode, der, |der|, i);
    }
    if |cns| == 0 {
      r := None;
    } else if |cns| == 1 {
      r := Some((cns[0], cns[0]));
    } else {
      r := Some((cns[0], cns[1]));
    }
  }

  function IssuerAndSubject(names: seq<string>): Option<(string, string)>
  {
    if |names| == 0 then None
    else if |names| == 1 then Some((names[0], names[0]))
    else Some((names[0], names[1]))
  }

  ghost function CnsOf(decode: Decoder, der: seq<Byte>): Option<(string, string)>
  {
    IssuerAndSubject(Names(decode, der))
  }

  /** Matches do not overlap, and every occurrence they leave out lies inside one of them. */
  lemma MatchesAreMaximal(der: seq<Byte>, i: int, j: int)
    ensures Starts(der, i) && Starts(der, j) && i < j ==> EndOf(der, i) <= j
    ensures CnAt(der, j) && !Starts(der, j) ==> exists s :: 0 <= s < j && Starts(der, s) && j < EndOf(der, s)
  {
    if Starts(der, i) && Starts(der, j) && i < j {
      assert 0 <= i;
    }
  }

  /** The first match from `lo` on starts at `i`, and its text reads `name`. */
  ghost predicate NextReads(decode: Decoder, der: seq<Byte>, lo: int, i: int, name: string)
  {
    lo <= i && NoneIn(der, lo, i) && Starts(der, i) && TextAt(decode, der, i) == [name]
  }

  lemma OneMoreName(decode: Decoder, der: seq<Byte>, lo: nat, i: nat, name: string, before: seq<string>)
    requires NextReads(decode, der, lo, i, name) && NamesBefore(decode, der, lo) == before
    ensures NamesBefore(decode, der, i + 1) == before + [name] && i < |der|
  {
    NothingBetween(decode, der, lo, i);
  }

  lemma TwoMoreNames(decode: Decoder, der: seq<Byte>, i: nat, j: nat, issuer: string, subject: string)
    requires NextReads(decode, der, 0, i, issuer) && NextReads(decode, der, i + 1, j, subject)
    ensures NamesBefore(decode, der, j + 1) == [issuer] + [subject] && j < |der|
  {
    OneMoreName(decode, der, 0, i, issuer, []);
    assert NamesBefore(decode, der, i + 1) == [issuer];
    OneMoreName(decode, der, i + 1, j, subject, [issuer]);
  }

  /** A certificate with two readable names: the earlier one is read as the issuer, the later as the subject. */
  lemma IssuerPrecedesSubject(decode: Decoder, der: seq<Byte>, i: nat, j: nat, issuer: string, subject: string)
    requires NextReads(decode, der, 0, i, issuer) && NextReads(decode, der, i + 1, j, subject) && NoneIn(der, j + 1, |der|)
    ensures CnsOf(decode, der) == Some((issuer, subject))
  {
    TwoMoreNames(decode, der, i, j, issuer, subject);
    ReadsTheRest(decode, der, j + 1, issuer, subject);
  }

  lemma ReadsTheRest(decode: Decoder, der: seq<Byte>, lo: nat, a: string, b: string)
    requires lo <= |der| && NoneIn(der, lo, |der|) && NamesBefore(decode, der, lo) == [a] + [b]
    ensures CnsOf(decode, der) == Some((a, b))
  {
    NothingBetween(decode, der, lo, |der|);
    ReadsTwo(decode, der, a, b);
  }

  lemma ReadsTwo(decode: Decoder, der: seq<Byte>, a: string, b: string)
    requires Names(decode, der) == [a] + [b]
    ensures CnsOf(decode, der) == Some((a, b))
  {}

  /** The first two names are the issuer and the subject, a lone one is both, and without any nothing is read. */
  lemma NamesRead(decode: Decoder, der: seq<Byte>)
    ensures
      var names := Names(decode, der);
      && (CnsOf(decode, der).None? <==> names == [])
      && (forall n | names == [n] :: CnsOf(decode, der) == Some((n, n)))
      && (forall a, b, rest | names == [a, b] + rest :: CnsOf(decode, der) == Some((a, b)))
  {}

  /** A common name as it is encoded: its identifier, a string tag, a short length, the text. */
  predicate IsEncoded(bytes: seq<Byte>, text: seq<Byte>)
  {
    exists tag: Byte :: EncodedWith(bytes, tag, text)
  }

  predicate EncodedWith(bytes: seq<Byte>, tag: Byte, text: seq<Byte>)
  {
    && |text| < 128 && bytes == [0x06, 0x03, 0x55, 0x04, 0x03, tag, |text|] + text
    && (tag == 0x0c || tag == 0x13 || tag == 0x16)
  }

  lemma Slices(der: seq<Byte>, i: nat, n: nat)
    requires i + 7 + n <= |der|
    ensures
      var bytes, text := der[i..i + 7 + n], der[i + 7..i + 7 + n];
      && bytes == der[i..i + 5] + [der[i + 5], der[i + 6]] + text && |text| == n
      && bytes[..5] == der[i..i + 5] && bytes[5] == der[i + 5] && bytes[6] == der[i + 6]
  {}

  /**
   * What is encoded as a common name is found where it stands, to its very end and with its very
   * text; and what is found within the bytes is so encoded.
   */
  lemma FoundIffEncoded(decode: Decoder, der: seq<Byte>, i: nat, n: nat)
    requires i + 7 + n <= |der|
    ensures CnAt(der, i) && EndOf(der, i) == i + 7 + n <==> IsEncoded(der[i..i + 7 + n], der[i + 7..i + 7 + n])
    ensures CnAt(der, i) && EndOf(der, i) == i + 7 + n ==>
      TextAt(decode, der, i) == match decode(der[i + 7..i + 7 + n]) case Some(t) => [t] case None => []
  {
    var bytes, text := der[i..i + 7 + n], der[i + 7..i + 7 + n];
    Slices(der, i, n);
    if CnAt(der, i) && EndOf(der, i) == i + 7 + n {
      assert EncodedWith(bytes, der[i + 5], text);
    }
    if tag: Byte :| EncodedWith(bytes, tag, text) {
      assert bytes[..5] == OID_CN && bytes[5] == tag && bytes[6] == |text|;
    }
  }

  // ---- the bundle and the walk ---------------------------------------------

  const MAX_HOPS: nat := 8

  datatype Bundled = Bundled(subject: string, der: seq<Byte>)

  /** Each bundled certificate is listed under the subject read out of it. */
  ghost predicate ListedBySubject(decode: Decoder, bundle: seq<Bundled>)
  {
    forall b | b in bundle :: CnsOf(decode, b.der).Some? && CnsOf(decode, b.der).value.1 == b.subject
  }

  /** The blocks that decode to a certificate with a name, in order. */
  ghost function BundleOf(decode: Decoder, blocks: seq<Option<seq<Byte>>>): seq<Bundled>
  {
    if blocks == [] then []
    else
      var pre, last := BundleOf(decode, blocks[..|blocks| - 1]), blocks[|blocks| - 1];
      if last.Some? && CnsOf(decode, last.value).Some?
      then pre + [Bundled(CnsOf(decode, last.value).value.1, last.value)] else pre
  }

  method YubicoIntermediates(decode: Decoder, blocks: seq<Option<seq<Byte>>>) returns (out: seq<Bundled>)
    ensures out == BundleOf(decode, blocks)
    ensures ListedBySubject(decode, out)
  {
    out := [];
    for k := 0 to |blocks|
      invariant out == BundleOf(decode, blocks[..k]) && ListedBySubject(decode, out)
    {
      assert blocks[..k + 1][..k] == blocks[..k];
      if blocks[k].Some? {
        var cns := CertCns(decode, blocks[k].value);
        if cns.Some? {
          out := out + [Bundled(cns.value.1, blocks[k].value)];
        }
      }
    }
    assert blocks[..|blocks|] == blocks;
  }

  /** The certificate at `k` is the first of this subject. */
  predicate FirstOf(bundle: seq<Bundled>, subject: string, k: int)
  {
    0 <= k < |bundle| && bundle[k].subject == subject && forall i | 0 <= i < k :: bundle[i].subject != subject
  }

  /** A block is bundled exactly if it decodes to a certificate with a name, and the bundle keeps the blocks' order. */
  lemma {:induction false} BundleConcat(decode: Decoder, a: seq<Option<seq<Byte>>>, b: seq<Option<seq<Byte>>>)
    ensures BundleOf(decode, a + b) == BundleOf(decode, a) + BundleOf(decode, b)
  {
    if b == [] {
      assert a + b == a;
    } else {
      var n := |b| - 1;
      assert (a + b)[..|a| + n] == a + b[..n] && (a + b)[|a| + n] == b[n];
      BundleConcat(decode, a, b[..n]);
    }
  }

  lemma BundleOfOne(decode: Decoder, block: Option<seq<Byte>>)
    ensures BundleOf(decode, [block]) ==
      if block.None? || CnsOf(decode, block.value).None? then []
      else [Bundled(CnsOf(decode, block.value).value.1, block.value)]
  {
    assert [block][..0] == [] && BundleOf(decode, []) == [];
  }

  /** The first bundled certificate with this subject. */
  function Find(bundle: seq<Bundled>, subject: string): (r: Option<seq<Byte>>)
    ensures r.Some? ==> exists k :: FirstOf(bundle, subject, k) && bundle[k].der == r.value
    ensures r.None? ==> forall b | b in bundle :: b.subject != subject
  {
    if bundle == [] then None
    else if bundle[0].subject == subject then
      assert FirstOf(bundle, subject, 0);
      Some(bundle[0].der)
    else
      var r := Find(bundle[1..], subject);
      assert forall k :: FirstOf(bundle[1..], subject, k) ==> FirstOf(bundle, subject, k + 1) && bundle[k + 1] == bundle[1..][k];
      r
  }

  /** The certificate after `cur` on the path, if its issuer is neither unreadable, nor the root, nor missing. */
  ghost function Hop(decode: Decoder, bundle: seq<Bundled>, root: string, cur: seq<Byte>): Option<seq<Byte>>
  {
    match CnsOf(decode, cur)
    case None => None
    case Some(cns) => if cns.0 == root then None else Find(bundle, cns.0)
  }

  /** The walk goes on exactly from a certificate whose issuer is readable, is not the root and is bundled: to the first such. */
  lemma HopIff(decode: Decoder, bundle: seq<Bundled>, root: string, cur: seq<Byte>, next: seq<Byte>)
    ensures Hop(decode, bundle, root, cur) == Some(next) <==>
      && CnsOf(decode, cur).Some? && CnsOf(decode, cur).value.0 != root
      && exists k :: FirstOf(bundle, CnsOf(decode, cur).value.0, k) && bundle[k].der == next
  {
    if CnsOf(decode, cur).Some? && Hop(decode, bundle, root, cur).Some? {
      var k :| FirstOf(bundle, CnsOf(decode, cur).value.0, k) && bundle[k].der == Hop(decode, bundle, root, cur).value;
    }
  }

  /** The path from `f9`: each link the hop after the one before, leaf first. */
  ghost predicate IsPath(decode: Decoder, bundle: seq<Bundled>, root: string, f9: seq<Byte>, chain: seq<seq<Byte>>)
  {
    && chain != [] && chain[0] == f9
    && forall k | 0 <= k < |chain| - 1 :: Hop(decode, bundle, root, chain[k]) == Some(chain[k + 1])
  }

  /** Walk from the leaf until the pinned root is the issuer, a name is missing, or eight hops were made. */
  method CompleteAttestationChain(decode: Decoder, bundle: seq<Bundled>, root: string, f9: seq<Byte>)
    returns (chain: seq<seq<Byte>>)
    ensures IsPath(decode, bundle, root, f9, chain) && |chain| <= MAX_HOPS + 1
    ensures |chain| < MAX_HOPS + 1 ==> Hop(decode, bundle, root, chain[|chain| - 1]).None?
  {
    chain := [f9];
    var cur := f9;
    for hops := 0 to MAX_HOPS
      invariant IsPath(decode, bundle, root, f9, chain) && |chain| == hops + 1 && cur == chain[hops]
    {
      var cns := CertCns(decode, cur);
      if cns.None? {
        break;
      }
      var issuer := cns.value.0;
      if issuer == root {
        return chain;
      }
      var next := Find(bundle, issuer);
      if next.None? {
        break;
      }
      chain := chain + [next.value];
      cur := next.value;
    }
  }

  /** Along a path over a bundle listed by subject, each link's issuer is the next link's subject. */
  lemma IssuersChain(
    decode: Decoder, bundle: seq<Bundled>, root: string, f9: seq<Byte>, chain: seq<seq<Byte>>, k: nat)
    requires ListedBySubject(decode, bundle) && IsPath(decode, bundle, root, f9, chain) && k < |chain| - 1
    ensures CnsOf(decode, chain[k]).Some? && CnsOf(decode, chain[k + 1]).Some?
    ensures CnsOf(decode, chain[k]).value.0 == CnsOf(decode, chain[k + 1]).value.1 != root
  {
    assert Hop(decode, bundle, root, chain[k]) == Some(chain[k + 1]);
    var i :| FirstOf(bundle, CnsOf(decode, chain[k]).value.0, i) && bundle[i].der == chain[k + 1];
    assert bundle[i] in bundle;
  }

  /** A path is fixed by its start and its length. */
  lemma {:induction false} PathsAgree(
    decode: Decoder, bundle: seq<Bundled>, root: string, f9: seq<Byte>, a: seq<seq<Byte>>, b: seq<seq<Byte>>, k: nat)
    requires IsPath(decode, bundle, root, f9, a) && IsPath(decode, bundle, root, f9, b)
    requires k < |a| && k < |b|
    ensures a[k] == b[k]
    decreases k
  {
    if k > 0 {
      PathsAgree(decode, bundle, root, f9, a, b, k - 1);
      assert Hop(decode, bundle, root, a[k - 1]) == Some(a[k]) && Hop(decode, bundle, root, b[k - 1]) == Some(b[k]);
    }
  }

  ghost predicate IssuedByRoot(decode: Decoder, root: string, der: seq<Byte>)
  {
    CnsOf(decode, der).Some? && CnsOf(decode, der).value.0 == root
  }

  /** Where no hop leads on, no path goes further. */
  lemma NoLongerPath(
    decode: Decoder, bundle: seq<Bundled>, root: string, f9: seq<Byte>, a: seq<seq<Byte>>, b: seq<seq<Byte>>)
    requires IsPath(decode, bundle, root, f9, a) && IsPath(decode, bundle, root, f9, b)
    requires Hop(decode, bundle, root, a[|a| - 1]).None?
    ensures |b| <= |a|
  {
    assert |b| > |a| ==> Hop(decode, bundle, root, b[|a| - 1]) == Some(b[|a| - 1 + 1]);
    if |b| > |a| {
      PathsAgree(decode, bundle, root, f9, a, b, |a| - 1);
    }
  }

  /**
   * The chain built ends at a certificate the pinned root issued exactly when any path from the
   * leaf of at most nine links does: stopping early loses none.
   */
  lemma ReachesTheRootIff(
    decode: Decoder, bundle: seq<Bundled>, root: string, f9: seq<Byte>, chain: seq<seq<Byte>>)
    requires IsPath(decode, bundle, root, f9, chain) && |chain| <= MAX_HOPS + 1
    requires |chain| < MAX_HOPS + 1 ==> Hop(decode, bundle, root, chain[|chain| - 1]).None?
    ensures IssuedByRoot(decode, root, chain[|chain| - 1]) <==>
      exists path :: ReachesRoot(decode, bundle, root, f9, path)
  {
    if path :| ReachesRoot(decode, bundle, root, f9, path) {
      if |chain| < MAX_HOPS + 1 {
        NoLongerPath(decode, bundle, root, f9, chain, path);
      }
      NoLongerPath(decode, bundle, root, f9, path, chain);
      PathsAgree(decode, bundle, root, f9, path, chain, |path| - 1);
    }
    if IssuedByRoot(decode, root, chain[|chain| - 1]) {
      assert ReachesRoot(decode, bundle, root, f9, chain);
    }
  }

  /** A path of at most nine links whose last one the root issued. */
  ghost predicate ReachesRoot(decode: Decoder, bundle: seq<Bundled>, root: string, f9: seq<Byte>, path: seq<seq<Byte>>)
  {
    && IsPath(decode, bundle, root, f9, path) && |path| <= MAX_HOPS + 1
    && IssuedByRoot(decode, root, path[|path| - 1])
  }
}
