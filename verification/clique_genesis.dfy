/** The Clique genesis of the execution chain: Eth1Genesis.Build sorts the signers in place and prints the
    extra-data of EIP-225 ("Specification"): 32 bytes of vanity, the signer addresses, 65 bytes of seal. */
module CliqueGenesis {
  import opened GoIntegers
  import opened Wrappers
  import opened Text

  type Address = s: seq<byte> | |s| == 20 witness Zeros(20)

  const VANITY: nat := 32
  const SEAL: nat := 65

  function Zeros(n: nat): seq<byte> {
    seq(n, _ => 0)
  }

  // ---------- the order on addresses ----------

  /** bytes.Compare. */
  function Compare(a: seq<byte>, b: seq<byte>): int {
    if a == [] then (if b == [] then 0 else -1)
    else if b == [] then 1
    else if a[0] < b[0] then -1
    else if a[0] > b[0] then 1
    else Compare(a[1..], b[1..])
  }

  predicate Leq(a: seq<byte>, b: seq<byte>) {
    Compare(a, b) <= 0
  }

  lemma {:induction false} CompareAntisymmetric(a: seq<byte>, b: seq<byte>)
    ensures Compare(a, b) == 0 <==> a == b
    ensures Compare(a, b) == -Compare(b, a)
  {
    if a != [] && b != [] {
      CompareAntisymmetric(a[1..], b[1..]);
      assert a == [a[0]] + a[1..] && b == [b[0]] + b[1..];
    }
  }

  lemma {:induction false} LeqTransitive(a: seq<byte>, b: seq<byte>, c: seq<byte>)
    requires Leq(a, b) && Leq(b, c)
    ensures Leq(a, c)
  {
    if a != [] && b != [] && c != [] && a[0] == b[0] == c[0] {
      LeqTransitive(a[1..], b[1..], c[1..]);
    }
  }

  /** The number that the bytes spell, most significant first. */
  function Number(a: seq<byte>): nat {
    if a == [] then 0 else 256 * Number(a[..|a| - 1]) + a[|a| - 1] as nat
  }

  function Power(n: nat): nat {
    if n == 0 then 1 else 256 * Power(n - 1)
  }

  lemma {:induction false} NumberFirst(a: seq<byte>)
    requires a != []
    ensures Number(a) == a[0] as nat * Power(|a| - 1) + Number(a[1..]) && Number(a[1..]) < Power(|a| - 1)
  {
    if |a| == 1 {
      assert a[..0] == [] && a[1..] == [];
    } else {
      var init := a[..|a| - 1];
      NumberFirst(init);
      assert a[1..][..|a| - 2] == init[1..] && a[1..][|a| - 2] == a[|a| - 1] && init[0] == a[0];
    }
  }

  lemma LeadingDecides(x: nat, y: nat, p: nat, r: nat, q: nat)
    requires r < p && q < p
    ensures x < y ==> x * p + r < y * p + q
    ensures x * p + r < y * p + q && x == y ==> r < q
  {
    if x < y {
      assert (x + 1) * p <= y * p;
    }
  }

  /** Addresses are ordered as the numbers they spell. */
  lemma {:induction false} CompareIsNumeric(a: seq<byte>, b: seq<byte>)
    requires |a| == |b|
    ensures Compare(a, b) < 0 <==> Number(a) < Number(b)
  {
    if a != [] {
      NumberFirst(a);
      NumberFirst(b);
      CompareIsNumeric(a[1..], b[1..]);
      var p, x, y := Power(|a| - 1), a[0] as nat, b[0] as nat;
      LeadingDecides(x, y, p, Number(a[1..]), Number(b[1..]));
      LeadingDecides(y, x, p, Number(b[1..]), Number(a[1..]));
    }
  }

  ghost predicate Sorted(s: seq<Address>) {
    forall i, j :: 0 <= i < j < |s| ==> Leq(s[i], s[j])
  }

  lemma FirstIsLeast(a: seq<Address>, x: Address)
    requires Sorted(a) && x in multiset(a)
    ensures Leq(a[0], x)
  {
    var i :| 0 <= i < |a| && a[i] == x;
    CompareAntisymmetric(x, x);
  }

  lemma WithoutFirst(a: seq<Address>)
    requires a != []
    ensures a == [a[0]] + a[1..] && multiset(a[1..]) == multiset(a) - multiset{a[0]} && a[0] in multiset(a)
  {
    assert a == [a[0]] + a[1..];
  }

  /** A multiset of addresses has one ascending order. */
  lemma {:induction false} SortedUnique(a: seq<Address>, b: seq<Address>)
    requires Sorted(a) && Sorted(b) && multiset(a) == multiset(b)
    ensures a == b
  {
    assert |multiset(a)| == |a| && |multiset(b)| == |b|;
    if a != [] {
      var x, y := a[0], b[0];
      WithoutFirst(a);
      WithoutFirst(b);
      FirstIsLeast(a, y);
      FirstIsLeast(b, x);
      CompareAntisymmetric(x, y);
      SortedUnique(a[1..], b[1..]);
    }
  }

  // ---------- sort.Slice ----------

  /** Ascending up to n, except that position j may hold too small an address. */
  ghost predicate SortedBut(s: seq<Address>, n: nat, j: nat)
    requires j <= n < |s|
  {
    forall p, q :: 0 <= p < q <= n && q != j ==> Leq(s[p], s[q])
  }

  function Swapped(s: seq<Address>, j: nat): seq<Address>
    requires 0 < j < |s|
  {
    s[j := s[j - 1]][j - 1 := s[j]]
  }

  lemma SwapDown(s: seq<Address>, n: nat, j: nat)
    requires 0 < j <= n < |s| && SortedBut(s, n, j) && Compare(s[j], s[j - 1]) < 0
    ensures SortedBut(Swapped(s, j), n, j - 1)
    ensures Swapped(s, j)[n + 1..] == s[n + 1..] && multiset(Swapped(s, j)) == multiset(s)
  {
  }

  lemma InPlace(s: seq<Address>, n: nat, j: nat)
    requires j <= n < |s| && SortedBut(s, n, j)
    requires j == 0 || Compare(s[j], s[j - 1]) >= 0
    ensures Sorted(s[..n + 1])
  {
    forall p | 0 <= p < j
      ensures Leq(s[p], s[j])
    {
      CompareAntisymmetric(s[j - 1], s[j]);
      if p < j - 1 {
        LeqTransitive(s[p], s[j - 1], s[j]);
      }
    }
  }

  /** Moves the element at n down into the ascending prefix before it. */
  method Insert(a: array<Address>, n: nat)
    requires n < a.Length && Sorted(a[..n])
    modifies a
    ensures Sorted(a[..n + 1])
    ensures a[n + 1..] == old(a[n + 1..])
    ensures multiset(a[..]) == multiset(old(a[..]))
  {
    var j := n;
    ghost var s := a[..];
    while j > 0 && Compare(a[j], a[j - 1]) < 0
      invariant 0 <= j <= n && s == a[..] && SortedBut(s, n, j)
      invariant s[n + 1..] == old(a[n + 1..]) && multiset(s) == multiset(old(a[..]))
    {
      SwapDown(s, n, j);
      s := Swapped(s, j);
      a[j], a[j - 1] := a[j - 1], a[j];
      j := j - 1;
    }
    InPlace(s, n, j);
  }

  /** What sort.Slice promises for this comparison: an ascending permutation, in place. */
  method SortSlice(a: array<Address>)
    modifies a
    ensures Sorted(a[..])
    ensures multiset(a[..]) == multiset(old(a[..]))
  {
    var i := 0;
    while i < a.Length
      invariant 0 <= i <= a.Length
      invariant Sorted(a[..i])
      invariant multiset(a[..]) == multiset(old(a[..]))
    {
      Insert(a, i);
      i := i + 1;
    }
    assert a[..i] == a[..];
  }

  // ---------- extra-data ----------

  function Concat(signers: seq<Address>): (bs: seq<byte>)
    ensures |bs| == 20 * |signers|
  {
    if signers == [] then [] else Concat(signers[..|signers| - 1]) + signers[|signers| - 1]
  }

  function PrintExtra(signers: seq<Address>): string {
    "0x" + HexEncode(Zeros(VANITY) + Concat(signers) + Zeros(SEAL))
  }

  datatype Checkpoint = Checkpoint(vanity: seq<byte>, signers: seq<Address>, seal: seq<byte>)

  function SplitSigners(bs: seq<byte>): seq<Address> {
    if |bs| < 20 then [] else SplitSigners(bs[..|bs| - 20]) + [bs[|bs| - 20..]]
  }

  /** The EIP-225 reader of a checkpoint block's extra-data. */
  function ParseExtra(s: string): Option<Checkpoint> {
    if |s| < 2 || s[..2] != "0x" then None
    else
      match HexDecode(s[2..])
      case None => None
      case Some(bs) =>
        if |bs| < VANITY + SEAL || (|bs| - VANITY - SEAL) % 20 != 0 then None
        else Some(Checkpoint(bs[..VANITY], SplitSigners(bs[VANITY..|bs| - SEAL]), bs[|bs| - SEAL..]))
  }

  lemma {:induction false} SplitConcat(signers: seq<Address>)
    ensures SplitSigners(Concat(signers)) == signers
  {
    if signers != [] {
      var n := |signers| - 1;
      SplitConcat(signers[..n]);
      var bs := Concat(signers);
      assert bs[..|bs| - 20] == Concat(signers[..n]) && bs[|bs| - 20..] == signers[n];
      assert signers == signers[..n] + [signers[n]];
    }
  }

  lemma {:induction false} ConcatSplit(bs: seq<byte>)
    requires |bs| % 20 == 0
    ensures Concat(SplitSigners(bs)) == bs
  {
    if |bs| >= 20 {
      var rest, last := bs[..|bs| - 20], bs[|bs| - 20..];
      ConcatSplit(rest);
      var signers := SplitSigners(bs);
      assert signers[..|signers| - 1] == SplitSigners(rest);
      assert bs == rest + last;
    }
  }

  /** Reading the printed extra-data back gives the signers in order, between empty vanity and seal, and the
      decoded text is 97 bytes plus 20 a signer. */
  lemma PrintThenParse(signers: seq<Address>)
    ensures ParseExtra(PrintExtra(signers)) == Some(Checkpoint(Zeros(VANITY), signers, Zeros(SEAL)))
    ensures |PrintExtra(signers)| == 2 + 2 * (97 + 20 * |signers|)
  {
    var bs := Zeros(VANITY) + Concat(signers) + Zeros(SEAL);
    HexRoundTrip(bs);
    SplitConcat(signers);
    assert PrintExtra(signers)[2..] == HexEncode(bs);
    assert bs[..VANITY] == Zeros(VANITY);
    assert bs[VANITY..|bs| - SEAL] == Concat(signers);
    assert bs[|bs| - SEAL..] == Zeros(SEAL);
  }

  /** The printed bytes are 32 of vanity, the addresses one after the other, and 65 of seal. */
  lemma PrintedBytes(signers: seq<Address>)
    ensures HexDecode(PrintExtra(signers)[2..]) == Some(Zeros(VANITY) + Concat(signers) + Zeros(SEAL))
    ensures |Zeros(VANITY)| == 32 && |Concat(signers)| == 20 * |signers| && |Zeros(SEAL)| == 65
  {
    var bs := Zeros(VANITY) + Concat(signers) + Zeros(SEAL);
    HexRoundTrip(bs);
    assert PrintExtra(signers)[2..] == HexEncode(bs);
  }

  /** Every text that reads as a checkpoint with empty vanity and seal is, in lower case, the print of its signers. */
  lemma ParseThenPrint(s: string)
    requires ParseExtra(s).Some?
    requires ParseExtra(s).value.vanity == Zeros(VANITY) && ParseExtra(s).value.seal == Zeros(SEAL)
    ensures PrintExtra(ParseExtra(s).value.signers) == ToLower(s)
  {
    var bs := HexDecode(s[2..]).value;
    HexDecodeIsPrinted(s[2..]);
    ConcatSplit(bs[VANITY..|bs| - SEAL]);
    assert bs == bs[..VANITY] + bs[VANITY..|bs| - SEAL] + bs[|bs| - SEAL..];
    LowerPrefix(s);
  }

  lemma LowerPrefix(s: string)
    requires |s| >= 2 && s[..2] == "0x"
    ensures ToLower(s) == "0x" + ToLower(s[2..])
  {
    assert s[0] == s[..2][0] && s[1] == s[..2][1];
  }

  // ---------- Build ----------

  /** What a successful Build does to the signer list and to Extra. */
  ghost predicate Built(before: seq<Address>, after: seq<Address>, extra: string) {
    Sorted(after) && multiset(after) == multiset(before) && extra == PrintExtra(after)
  }

  class Eth1Genesis {
    var validators: array<Address>
    var extra: string

    constructor (validators: array<Address>)
      ensures this.validators == validators && extra == ""
    {
      this.validators := validators;
      extra := "";
    }

    method Build() returns (ok: bool)
      modifies this`extra, validators
      ensures ok <==> validators.Length > 0
      ensures !ok ==> extra == old(extra) && validators[..] == old(validators[..])
      ensures ok ==> Built(old(validators[..]), validators[..], extra)
    {
      if validators.Length == 0 {
        return false;
      }
      SortSlice(validators);
      var bytes := Zeros(VANITY);
      var i := 0;
      while i < validators.Length
        invariant 0 <= i <= validators.Length
        invariant bytes == Zeros(VANITY) + Concat(validators[..i])
      {
        assert validators[..i + 1][..i] == validators[..i];
        bytes := bytes + validators[i];
        i := i + 1;
      }
      assert validators[..i] == validators[..];
      bytes := bytes + Zeros(SEAL);
      extra := "0x" + HexEncode(bytes);
      return true;
    }
  }

  /** The signers of a built genesis ascend as numbers. */
  lemma BuiltAscends(before: seq<Address>, after: seq<Address>, extra: string, i: nat, j: nat)
    requires Built(before, after, extra) && i < j < |after|
    ensures Number(after[i]) <= Number(after[j])
  {
    CompareIsNumeric(after[j], after[i]);
    CompareAntisymmetric(after[i], after[j]);
  }

  /** Canonical form: two signer lists give the same Extra exactly when they are permutations of each other. */
  lemma BuildIsCanonical(before1: seq<Address>, after1: seq<Address>, extra1: string,
                         before2: seq<Address>, after2: seq<Address>, extra2: string)
    requires Built(before1, after1, extra1) && Built(before2, after2, extra2)
    ensures extra1 == extra2 <==> multiset(before1) == multiset(before2)
  {
    if multiset(before1) == multiset(before2) {
      SortedUnique(after1, after2);
    }
    if extra1 == extra2 {
      PrintThenParse(after1);
      PrintThenParse(after2);
    }
  }

  /** Decoding Extra recovers the ascending permutation of the signers, and building again changes nothing. */
  lemma BuildIsReadable(before: seq<Address>, after: seq<Address>, extra: string, again: seq<Address>, extraAgain: string)
    requires Built(before, after, extra) && Built(after, again, extraAgain)
    ensures ParseExtra(extra).Some?
    ensures var signers := ParseExtra(extra).value.signers; Sorted(signers) && multiset(signers) == multiset(before)
    ensures again == after && extraAgain == extra
  {
    PrintThenParse(after);
    SortedUnique(after, again);
  }
}
