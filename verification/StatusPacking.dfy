/** Packing the revocation flags of credentials into a status list, and reading them back. */
module StatusPacking {
  import opened Wrappers
  import opened Bits
  import opened StatusList

  datatype Record = Record(id: int, revoked: bool)

  datatype PackError = NegativeShift | TooBig

  /* sorted, by identifier and stable */

  function Insert(x: Record, s: seq<Record>): seq<Record> {
    if s == [] || s[|s| - 1].id <= x.id then s + [x]
    else Insert(x, s[..|s| - 1]) + [s[|s| - 1]]
  }

  function SortedById(s: seq<Record>): (r: seq<Record>) {
    if s == [] then [] else Insert(s[|s| - 1], SortedById(s[..|s| - 1]))
  }

  ghost predicate Ascending(s: seq<Record>) {
    forall i, j :: 0 <= i < j < |s| ==> s[i].id <= s[j].id
  }

  // The flag of the last record with the identifier.
  function Flag(s: seq<Record>, id: int): bool {
    if s == [] then false
    else if s[|s| - 1].id == id then s[|s| - 1].revoked
    else Flag(s[..|s| - 1], id)
  }

  lemma {:induction false} InsertFacts(x: Record, s: seq<Record>)
    ensures multiset(Insert(x, s)) == multiset(s) + multiset{x}
    ensures |Insert(x, s)| == |s| + 1
    ensures Ascending(s) ==> Ascending(Insert(x, s))
  {
    if s == [] || s[|s| - 1].id <= x.id {
    } else {
      var front, last := s[..|s| - 1], s[|s| - 1];
      InsertFacts(x, front);
      assert s == front + [last];
      if Ascending(s) {
        LastStaysLast(x, front, Insert(x, front), last);
      }
    }
  }

  lemma LastStaysLast(x: Record, front: seq<Record>, inserted: seq<Record>, last: Record)
    requires Ascending(inserted) && multiset(inserted) == multiset(front) + multiset{x}
    requires x.id <= last.id && forall y :: y in front ==> y.id <= last.id
    ensures Ascending(inserted + [last])
  {
    forall i | 0 <= i < |inserted| ensures inserted[i].id <= last.id {
      assert inserted[i] in multiset(inserted);
      assert inserted[i] == x || inserted[i] in front;
    }
  }

  lemma {:induction false} InsertFlag(x: Record, s: seq<Record>, id: int)
    ensures Flag(Insert(x, s), id) == if x.id == id then x.revoked else Flag(s, id)
  {
    if s == [] || s[|s| - 1].id <= x.id {
      assert (s + [x])[..|s|] == s;
    } else {
      var front := s[..|s| - 1];
      InsertFlag(x, front, id);
      assert Insert(x, s)[..|Insert(x, s)| - 1] == Insert(x, front);
    }
  }

  // Sorting is a stable permutation: for each identifier the last record stays the last.
  lemma {:induction false} SortedFacts(s: seq<Record>)
    ensures multiset(SortedById(s)) == multiset(s) && |SortedById(s)| == |s|
    ensures Ascending(SortedById(s))
    ensures SameFlags(SortedById(s), s)
  {
    if s == [] {
    } else {
      var front, last := s[..|s| - 1], s[|s| - 1];
      SortedFacts(front);
      assert s == front + [last];
      InsertFacts(last, SortedById(front));
      forall id ensures Flag(SortedById(s), id) == Flag(s, id) {
        InsertFlag(last, SortedById(front), id);
      }
    }
  }

  /* The loop. */

  // One step for a record, with n records in all.
  function Step(bits: nat, record: Record, n: nat): Result<nat, PackError> {
    if record.id > n then Err(NegativeShift)
    else
      var mask := Pow2(n - record.id);
      Ok(if record.revoked then Or(bits, mask) else AndNot(bits, mask))
  }

  function Pack(s: seq<Record>, n: nat): Result<nat, PackError> {
    if s == [] then Ok(0)
    else
      var bits := Pack(s[..|s| - 1], n);
      if bits.Err? then bits else Step(bits.value, s[|s| - 1], n)
  }

  // Big-endian bytes.
  function ToBytes(a: nat, size: nat): (bytes: seq<byte>)
    ensures |bytes| == size
  {
    if size == 0 then [] else ToBytes(a / 256, size - 1) + [a % 256]
  }

  function ByteLength(n: nat): nat {
    (n + 7) / 8
  }

  function ArrayToBitstring(records: seq<Record>): Result<seq<byte>, PackError> {
    var size := ByteLength(|records|);
    var bits := Pack(SortedById(records), |records|);
    if bits.Err? then Err(bits.error)
    else if bits.value >= Pow2(8 * size) then Err(TooBig)
    else Ok(ToBytes(bits.value, size))
  }

  method ArrayToBitstringLoop(records: seq<Record>) returns (r: Result<seq<byte>, PackError>)
    ensures r == ArrayToBitstring(records)
  {
    var sorted, n := SortedById(records), |records|;
    var bitstring: nat := 0;
    for i := 0 to |sorted|
      invariant Pack(sorted[..i], n) == Ok(bitstring)
    {
      PackSnoc(sorted, i, n);
      if sorted[i].id > n {
        FailureStays(sorted, i + 1, n);
        return Err(NegativeShift);
      }
      if sorted[i].revoked {
        bitstring := Or(bitstring, Pow2(n - sorted[i].id));
      } else {
        bitstring := AndNot(bitstring, Pow2(n - sorted[i].id));
      }
    }
    assert sorted[..|sorted|] == sorted;
    var byteLength := (n + 7) / 8;
    if bitstring >= Pow2(8 * byteLength) {
      return Err(TooBig);
    }
    return Ok(ToBytes(bitstring, byteLength));
  }

  lemma PackSnoc(s: seq<Record>, i: nat, n: nat)
    requires i < |s| && Pack(s[..i], n).Ok?
    ensures Pack(s[..i + 1], n) == Step(Pack(s[..i], n).value, s[i], n)
  {
    assert s[..i + 1][..i] == s[..i];
  }

  lemma {:induction false} FailureStays(s: seq<Record>, i: nat, n: nat)
    requires i <= |s| && Pack(s[..i], n).Err?
    ensures Pack(s, n) == Pack(s[..i], n)
  {
    if i < |s| {
      var front := s[..|s| - 1];
      assert front[..i] == s[..i];
      FailureStays(front, i, n);
    } else {
      assert s[..i] == s;
    }
  }

  /* What the bits are. */

  // With n records in all, the bit of each identifier is its flag.
  ghost predicate BitsAreFlags(bits: nat, s: seq<Record>, n: nat) {
    forall k: nat :: Bit(bits, k) == if Flag(s, n - k) then 1 else 0
  }

  ghost predicate SameFlags(s: seq<Record>, t: seq<Record>) {
    forall id :: Flag(s, id) == Flag(t, id)
  }

  lemma {:induction false} PackExact(s: seq<Record>, n: nat)
    ensures Pack(s, n).Ok? <==> forall x :: x in s ==> x.id <= n
    ensures Pack(s, n).Err? ==> Pack(s, n).error == NegativeShift
    ensures Pack(s, n).Ok? ==> BitsAreFlags(Pack(s, n).value, s, n)
  {
    if s == [] {
      forall k: nat ensures Bit(0, k) == 0 { LowOfZero(k); }
    } else {
      var front, last := s[..|s| - 1], s[|s| - 1];
      assert s == front + [last];
      PackExact(front, n);
      if Pack(s, n).Ok? {
        forall k: nat ensures Bit(Pack(s, n).value, k) == if Flag(s, n - k) then 1 else 0 {
          BitOfOr(Pack(front, n).value, n - last.id, k);
          BitOfAndNot(Pack(front, n).value, n - last.id, k);
        }
      }
    }
  }

  lemma {:induction false} ByteOfToBytes(a: nat, size: nat, i: nat)
    requires i < size
    ensures ToBytes(a, size)[i] == Low(Shr(a, 8 * (size - 1 - i)), 8)
    decreases size
  {
    Pow2Of8();
    ShrIsDivision(a, 8);
    if i < size - 1 {
      ByteOfToBytes(a / 256, size - 1, i);
      ShrShr(a, 8, 8 * (size - 2 - i));
    }
  }

  // Where a bit of the packed integer is found by a reader that counts from the first byte up
  // and, in each byte, from the lowest bit up.
  function Position(size: nat, bit: nat): int {
    8 * (size - 1 - bit / 8) + bit % 8
  }

  lemma ReadPackedBit(a: nat, size: nat, bit: nat)
    requires bit < 8 * size
    ensures GetStatus(ToBytes(a, size), 1, Position(size, bit)) == Ok(Bit(a, bit))
  {
    BitOfByte(a, size, bit / 8, bit % 8);
  }

  lemma BitOfByte(a: nat, size: nat, m: nat, j: nat)
    requires m < size && j < 8
    ensures GetStatus(ToBytes(a, size), 1, 8 * (size - 1 - m) + j) == Ok(Bit(a, 8 * m + j))
  {
    OneBitStatus(ToBytes(a, size), size - 1 - m, j);
    ByteOfToBytes(a, size, size - 1 - m);
    FieldOfLow(Shr(a, 8 * m), 8, j, 1);
    ShrShr(a, 8 * m, j);
    LowestBit(Shr(a, 8 * m + j));
  }

  lemma LowestBit(a: nat)
    ensures Low(a, 1) == a % 2
  {
    assert Low(a, 1) == a % 2 + 2 * Low(a / 2, 0);
  }

  lemma OneBitStatus(list: seq<byte>, i: nat, j: nat)
    requires i < |list| && j < 8
    ensures GetStatus(list, 1, 8 * i + j) == Ok(Low(Shr(list[i], j), 1))
  {
    AndMask(list[i], 1, j);
  }

  // Packing the records gives a list in which the flag of x is read at the position.
  predicate ReadsFlag(records: seq<Record>, x: Record, position: int) {
    var list := ArrayToBitstring(records);
    list.Ok? && GetStatus(list.value, 1, position) == Ok(if x.revoked then 1 else 0)
  }

  // The list holds, for each identifier, the flag of the last record with it.
  ghost predicate HoldsFlags(list: seq<byte>, records: seq<Record>) {
    forall id :: |records| - 8 * |list| < id <= |records| ==>
      GetStatus(list, 1, Position(|list|, |records| - id)) == Ok(if Flag(records, id) then 1 else 0)
  }

  // Nothing that ends up revoked has a bit off the list.
  ghost predicate RevokedFit(records: seq<Record>) {
    forall id :: Flag(records, id) ==> id > |records| - 8 * ByteLength(|records|)
  }

  lemma {:induction false} FlagHasRecord(s: seq<Record>, id: int)
    ensures Flag(s, id) ==> Record(id, true) in s
  {
    if s == [] {
    } else {
      FlagHasRecord(s[..|s| - 1], id);
    }
  }

  // The packed integer of the records, bit by bit.
  lemma {:induction false} PackedBits(records: seq<Record>)
    ensures Pack(SortedById(records), |records|).Ok? <==> forall x :: x in records ==> x.id <= |records|
    ensures Pack(SortedById(records), |records|).Ok? ==>
              BitsAreFlags(Pack(SortedById(records), |records|).value, records, |records|)
  {
    var sorted, n := SortedById(records), |records|;
    SortedFacts(records);
    SameMembers(records, sorted);
    PackExact(sorted, n);
    if Pack(sorted, n).Ok? {
      FlagsCarryOver(Pack(sorted, n).value, sorted, records, n);
    }
  }

  lemma FlagsCarryOver(bits: nat, s: seq<Record>, t: seq<Record>, n: nat)
    requires BitsAreFlags(bits, s, n) && SameFlags(s, t)
    ensures BitsAreFlags(bits, t, n)
  {
    forall k: nat ensures Bit(bits, k) == if Flag(t, n - k) then 1 else 0 {
      assert Flag(s, n - k) == Flag(t, n - k);
    }
  }

  lemma SameMembers(s: seq<Record>, t: seq<Record>)
    requires multiset(s) == multiset(t)
    ensures forall x :: x in s <==> x in t
  {
    forall x ensures x in s <==> x in t {
      assert x in multiset(s) <==> x in multiset(t);
    }
  }

  lemma FittingFlags(records: seq<Record>, bits: nat)
    requires BitsAreFlags(bits, records, |records|)
    requires RevokedFit(records)
    ensures bits < Pow2(8 * ByteLength(|records|))
  {
    var n, m := |records|, 8 * ByteLength(|records|);
    forall k: nat | k >= m ensures Bit(bits, k) == 0 {
      assert !Flag(records, n - k);
    }
    SmallIffNoHighBit(bits, m);
  }

  lemma FlagsOfFitting(records: seq<Record>, bits: nat)
    requires BitsAreFlags(bits, records, |records|)
    requires forall x :: x in records ==> x.id <= |records|
    requires bits < Pow2(8 * ByteLength(|records|))
    ensures RevokedFit(records)
  {
    var n, m := |records|, 8 * ByteLength(|records|);
    SmallIffNoHighBit(bits, m);
    forall id | Flag(records, id) ensures id > n - m {
      FlagHasRecord(records, id);
      assert Bit(bits, n - id) == if Flag(records, n - (n - id)) then 1 else 0;
    }
  }

  lemma PackedHoldsFlags(records: seq<Record>, bits: nat)
    requires BitsAreFlags(bits, records, |records|)
    ensures HoldsFlags(ToBytes(bits, ByteLength(|records|)), records)
  {
    var n, size := |records|, ByteLength(|records|);
    forall id | n - 8 * size < id <= n
      ensures GetStatus(ToBytes(bits, size), 1, Position(size, n - id)) == Ok(if Flag(records, id) then 1 else 0)
    {
      ReadPackedBit(bits, size, n - id);
      assert Bit(bits, n - id) == if Flag(records, n - (n - id)) then 1 else 0;
    }
  }

  /**
   For any records: packing succeeds iff no identifier exceeds their number and none that ends
   up revoked is so low that its bit falls off the list; and then the list holds every flag.
   */
  lemma PackingExact(records: seq<Record>)
    ensures ArrayToBitstring(records).Ok? <==>
              (forall x :: x in records ==> x.id <= |records|) && RevokedFit(records)
    ensures ArrayToBitstring(records).Ok? ==>
              && |ArrayToBitstring(records).value| == ByteLength(|records|)
              && HoldsFlags(ArrayToBitstring(records).value, records)
  {
    PackedBits(records);
    var bits := Pack(SortedById(records), |records|);
    if bits.Ok? {
      if RevokedFit(records) {
        FittingFlags(records, bits.value);
      } else if bits.value < Pow2(8 * ByteLength(|records|)) {
        FlagsOfFitting(records, bits.value);
      }
      PackedHoldsFlags(records, bits.value);
    }
  }

  // An identifier that is too high is noticed first; then a bit that falls off the list.
  lemma {:induction false} PackingErrors(records: seq<Record>)
    ensures ArrayToBitstring(records) == Err(NegativeShift) <==> exists x :: x in records && x.id > |records|
    ensures ArrayToBitstring(records) == Err(TooBig) <==>
              (forall x :: x in records ==> x.id <= |records|) && !RevokedFit(records)
  {
    var sorted := SortedById(records);
    PackingExact(records);
    PackedBits(records);
    PackExact(sorted, |records|);
  }

  /* Credentials are numbered from 1. */

  ghost predicate Distinct(s: seq<Record>) {
    forall i, j :: 0 <= i < j < |s| ==> s[i].id != s[j].id
  }

  // One record for each of the identifiers 1 to n, in any order.
  ghost predicate Numbered(s: seq<Record>) {
    Distinct(s) && forall x :: x in s ==> 1 <= x.id <= |s|
  }

  function Weight(x: Record, n: nat): nat {
    if x.revoked && x.id <= n then Pow2(n - x.id) else 0
  }

  function TotalWeight(s: seq<Record>, n: nat): nat {
    if s == [] then 0 else TotalWeight(s[..|s| - 1], n) + Weight(s[|s| - 1], n)
  }

  lemma {:induction false} InsertWeight(x: Record, s: seq<Record>, n: nat)
    ensures TotalWeight(Insert(x, s), n) == TotalWeight(s, n) + Weight(x, n)
  {
    if s == [] || s[|s| - 1].id <= x.id {
      assert (s + [x])[..|s|] == s;
    } else {
      InsertWeight(x, s[..|s| - 1], n);
      assert Insert(x, s)[..|Insert(x, s)| - 1] == Insert(x, s[..|s| - 1]);
    }
  }

  lemma {:induction false} SortedWeight(s: seq<Record>, n: nat)
    ensures TotalWeight(SortedById(s), n) == TotalWeight(s, n)
  {
    if s == [] {
    } else {
      SortedWeight(s[..|s| - 1], n);
      InsertWeight(s[|s| - 1], SortedById(s[..|s| - 1]), n);
    }
  }

  lemma {:induction false} InsertDistinct(x: Record, s: seq<Record>)
    requires Distinct(s) && forall y :: y in s ==> y.id != x.id
    ensures Distinct(Insert(x, s))
  {
    if s == [] || s[|s| - 1].id <= x.id {
    } else {
      var front, last := s[..|s| - 1], s[|s| - 1];
      InsertDistinct(x, front);
      InsertFacts(x, front);
      forall i | 0 <= i < |front| + 1 ensures Insert(x, front)[i].id != last.id {
        assert Insert(x, front)[i] in multiset(Insert(x, front));
        assert Insert(x, front)[i] == x || Insert(x, front)[i] in front;
      }
    }
  }

  lemma {:induction false} SortedDistinct(s: seq<Record>)
    requires Distinct(s)
    ensures Distinct(SortedById(s))
  {
    if s == [] {
    } else {
      var front := s[..|s| - 1];
      SortedDistinct(front);
      SortedFacts(front);
      forall y | y in SortedById(front) ensures y.id != s[|s| - 1].id {
        assert y in multiset(front);
      }
      InsertDistinct(s[|s| - 1], SortedById(front));
    }
  }

  // With distinct identifiers every step sets or clears a bit that is clear.
  lemma {:induction false} PackIsWeight(s: seq<Record>, n: nat)
    requires Distinct(s) && forall x :: x in s ==> x.id <= n
    ensures Pack(s, n) == Ok(TotalWeight(s, n))
  {
    if s == [] {
    } else {
      var front, last := s[..|s| - 1], s[|s| - 1];
      PackIsWeight(front, n);
      PackExact(front, n);
      FlagHasRecord(front, last.id);
      assert Bit(Pack(front, n).value, n - last.id) == if Flag(front, n - (n - last.id)) then 1 else 0;
      OrOfClear(Pack(front, n).value, n - last.id);
    }
  }

  lemma NumberedIsPacked(records: seq<Record>)
    requires Numbered(records)
    ensures ArrayToBitstring(records).Ok?
    ensures |ArrayToBitstring(records).value| == ByteLength(|records|)
    ensures HoldsFlags(ArrayToBitstring(records).value, records)
  {
    forall id | Flag(records, id) ensures id > |records| - 8 * ByteLength(|records|) {
      FlagHasRecord(records, id);
    }
    PackingExact(records);
  }

  /**
   For n credentials numbered from 1, in any order, packing succeeds, the packed integer is the
   sum of 2^(n - id) over the revoked ones, and the list holds the flag of every credential.
   */
  lemma NumberedPacking(records: seq<Record>)
    requires Numbered(records)
    ensures ArrayToBitstring(records) == Ok(ToBytes(TotalWeight(records, |records|), ByteLength(|records|)))
    ensures TotalWeight(records, |records|) < Pow2(8 * ByteLength(|records|))
    ensures forall x :: x in records ==> ReadsFlag(records, x, Position(ByteLength(|records|), |records| - x.id))
  {
    NumberedWeight(records);
    forall x | x in records
      ensures ReadsFlag(records, x, Position(ByteLength(|records|), |records| - x.id))
    {
      NumberedReads(records, x, Position(ByteLength(|records|), |records| - x.id));
    }
  }

  lemma {:induction false} NumberedWeight(records: seq<Record>)
    requires Numbered(records)
    ensures ArrayToBitstring(records) == Ok(ToBytes(TotalWeight(records, |records|), ByteLength(|records|)))
    ensures TotalWeight(records, |records|) < Pow2(8 * ByteLength(|records|))
  {
    var sorted, n := SortedById(records), |records|;
    NumberedIsPacked(records);
    SortedFacts(records);
    SortedDistinct(records);
    SortedWeight(records, n);
    SameMembers(records, sorted);
    PackIsWeight(sorted, n);
  }

  lemma NumberedReads(records: seq<Record>, x: Record, position: int)
    requires Numbered(records) && x in records
    requires position == Position(ByteLength(|records|), |records| - x.id)
    ensures ReadsFlag(records, x, position)
  {
    NumberedIsPacked(records);
    FlagOfDistinct(records, x);
    var list := ArrayToBitstring(records).value;
    assert GetStatus(list, 1, Position(|list|, |records| - x.id)) == Ok(if Flag(records, x.id) then 1 else 0);
  }

  lemma {:induction false} FlagOfDistinct(s: seq<Record>, x: Record)
    requires Distinct(s) && x in s
    ensures Flag(s, x.id) == x.revoked
  {
    var front := s[..|s| - 1];
    assert s == front + [s[|s| - 1]];
    if x != s[|s| - 1] {
      FlagOfDistinct(front, x);
      var i :| 0 <= i < |front| && front[i] == x;
      assert s[i].id != s[|s| - 1].id;
    }
  }
}
