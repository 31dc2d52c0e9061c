/** The status list that the endpoint publishes, and what a verifier reads in it. */
module StatusEndpoint {
  import opened Wrappers
  import opened Bits
  import opened StatusList
  import opened StatusPacking

  /* The text of the list. */

  // The integer of big-endian bytes.
  function FromBytes(bytes: seq<byte>): nat {
    if bytes == [] then 0 else 256 * FromBytes(bytes[..|bytes| - 1]) + bytes[|bytes| - 1]
  }

  function Digit(bit: nat): char {
    if bit == 0 then '0' else '1'
  }

  predicate AllDigits(text: string) {
    forall i :: 0 <= i < |text| ==> text[i] == '0' || text[i] == '1'
  }

  function Binary(a: nat): (text: string)
    ensures AllDigits(text)
  {
    if a < 2 then [Digit(a)] else Binary(a / 2) + [Digit(a % 2)]
  }

  function ZFill(text: string, width: nat): string {
    if |text| >= width then text else seq(width - |text|, i => '0') + text
  }

  // The digits that the endpoint publishes for the credentials.
  function BuildList(records: seq<Record>): (r: Result<string, PackError>)
    ensures r.Ok? ==> AllDigits(r.value)
  {
    if records == [] then Ok("")
    else
      var packed := ArrayToBitstring(records);
      if packed.Err? then Err(packed.error)
      else Ok(ZFill(Binary(FromBytes(packed.value)), |records|))
  }

  function Utf8(text: string): (bytes: seq<byte>)
    requires AllDigits(text)
    ensures |bytes| == |text|
  {
    seq(|text|, i requires 0 <= i < |text| => text[i] as int)
  }

  // The bytes that a verifier finds in the published token.
  function Published(records: seq<Record>): Result<seq<byte>, PackError> {
    var text := BuildList(records);
    if text.Err? then Err(text.error) else Ok(Utf8(text.value))
  }

  /* What the digits are. */

  lemma {:induction false} FromToBytes(a: nat, size: nat)
    requires a < Pow2(8 * size)
    ensures FromBytes(ToBytes(a, size)) == a
    decreases size
  {
    if size > 0 {
      Pow2Of8Times(8 * (size - 1));
      FromToBytes(a / 256, size - 1);
      assert ToBytes(a, size)[..size - 1] == ToBytes(a / 256, size - 1);
    }
  }

  // Counted from the right, the digits are the bits; what is left of them is zero.
  ghost predicate ShowsBits(text: string, a: nat) {
    && (forall k: nat :: k < |text| ==> text[|text| - 1 - k] == Digit(Bit(a, k)))
    && (forall k: nat :: k >= |text| ==> Bit(a, k) == 0)
  }

  lemma {:induction false} BinaryShowsBits(a: nat)
    ensures ShowsBits(Binary(a), a)
    ensures forall m: nat :: m >= 1 ==> (|Binary(a)| <= m <==> a < Pow2(m))
  {
    if a < 2 {
      forall k: nat | k >= 1 ensures Bit(a, k) == 0 { LowOfZero(k - 1); }
      forall m: nat | m >= 1 ensures a < Pow2(m) { Pow2Grows(1, m); }
    } else {
      BinaryShowsBits(a / 2);
      var text, front := Binary(a), Binary(a / 2);
      forall k: nat | k < |text| ensures text[|text| - 1 - k] == Digit(Bit(a, k)) {
        if k > 0 {
          assert front[|front| - 1 - (k - 1)] == Digit(Bit(a / 2, k - 1));
        }
      }
      forall k: nat | k >= |text| ensures Bit(a, k) == 0 {
        assert Bit(a / 2, k - 1) == 0;
      }
      forall m: nat | m >= 1 ensures |text| <= m <==> a < Pow2(m) {
        assert m >= 2 ==> (|front| <= m - 1 <==> a / 2 < Pow2(m - 1));
      }
    }
  }

  lemma FilledShowsBits(text: string, a: nat, width: nat)
    requires ShowsBits(text, a)
    ensures ShowsBits(ZFill(text, width), a)
  {
    var filled := ZFill(text, width);
    forall k: nat | k < |filled| ensures filled[|filled| - 1 - k] == Digit(Bit(a, k)) {
      if k < |text| {
        assert filled[|filled| - 1 - k] == text[|text| - 1 - k];
      }
    }
  }

  // The digit of each identifier is its flag.
  ghost predicate ShowsFlags(text: string, records: seq<Record>) {
    forall id :: |records| - |text| < id <= |records| ==>
      text[|text| - |records| + id - 1] == if Flag(records, id) then '1' else '0'
  }

  ghost predicate NoneBelowOne(records: seq<Record>) {
    forall id :: id < 1 ==> !Flag(records, id)
  }

  /**
   For any credentials: a list is published iff they can be packed; it has a digit for each of
   them, which is their flag, and no further digit iff no identifier below 1 is revoked.
   */
  lemma PublishedListExact(records: seq<Record>)
    requires records != []
    ensures BuildList(records).Ok? <==>
              (forall x :: x in records ==> x.id <= |records|) && RevokedFit(records)
    ensures BuildList(records).Ok? ==>
              && |BuildList(records).value| >= |records|
              && (|BuildList(records).value| == |records| <==> NoneBelowOne(records))
              && ShowsFlags(BuildList(records).value, records)
  {
    PackingExact(records);
    PackedBits(records);
    if BuildList(records).Ok? {
      var a := Pack(SortedById(records), |records|).value;
      FromToBytes(a, ByteLength(|records|));
      BinaryShowsBits(a);
      FilledShowsBits(Binary(a), a, |records|);
      BitsShowFlags(ZFill(Binary(a), |records|), a, records);
      NoHighFlags(a, records);
    }
  }

  lemma BitsShowFlags(text: string, a: nat, records: seq<Record>)
    requires ShowsBits(text, a) && BitsAreFlags(a, records, |records|)
    ensures ShowsFlags(text, records)
  {
    forall id | |records| - |text| < id <= |records|
      ensures text[|text| - |records| + id - 1] == if Flag(records, id) then '1' else '0'
    {
      var k: nat := |records| - id;
      assert text[|text| - 1 - k] == Digit(Bit(a, k));
      assert Bit(a, k) == if Flag(records, |records| - k) then 1 else 0;
    }
  }

  lemma {:induction false} NoHighFlags(a: nat, records: seq<Record>)
    requires BitsAreFlags(a, records, |records|)
    ensures a < Pow2(|records|) <==> NoneBelowOne(records)
  {
    var n := |records|;
    SmallIffNoHighBit(a, n);
    if a < Pow2(n) {
      forall id | id < 1 ensures !Flag(records, id) {
        assert Bit(a, n - id) == if Flag(records, n - (n - id)) then 1 else 0;
      }
    } else {
      var k: nat :| k >= n && Bit(a, k) != 0;
      assert Flag(records, n - k);
    }
  }

  /**
   For n credentials numbered from 1, in any order, the published list is n digits long, and
   digit id - 1 is '1' iff credential id is revoked.
   */
  lemma {:induction false} NumberedList(records: seq<Record>)
    requires Numbered(records)
    ensures BuildList(records).Ok? && |BuildList(records).value| == |records|
    ensures forall x :: x in records ==> (BuildList(records).value[x.id - 1] == '1' <==> x.revoked)
  {
    if records != [] {
      NumberedFits(records);
      PublishedListExact(records);
      var text := BuildList(records).value;
      forall x | x in records ensures text[x.id - 1] == '1' <==> x.revoked {
        FlagOfDistinct(records, x);
        assert text[|text| - |records| + x.id - 1] == if Flag(records, x.id) then '1' else '0';
      }
    }
  }

  lemma {:induction false} NumberedFits(records: seq<Record>)
    requires Numbered(records)
    ensures RevokedFit(records) && NoneBelowOne(records)
  {
    forall id | Flag(records, id) ensures id >= 1 {
      FlagHasRecord(records, id);
    }
  }

  /* What a verifier reads. */

  // Reading one bit at a position of a list of digits.
  lemma ReadDigits(text: string, i: nat, j: nat)
    requires AllDigits(text) && i < |text| && j < 8
    ensures GetStatus(Utf8(text), 1, 8 * i + j) == Ok(DigitBit(text[i], j))
  {
    OneBitStatus(Utf8(text), i, j);
    BitOfDigit(text[i], j);
  }

  // Bit j of the code of a digit.
  function DigitBit(digit: char, j: nat): nat {
    if j == 4 || j == 5 || (j == 0 && digit == '1') then 1 else 0
  }

  lemma BitOfDigit(digit: char, j: nat)
    requires digit == '0' || digit == '1'
    requires j < 8
    ensures Low(Shr(digit as int, j), 1) == DigitBit(digit, j)
  {
    LowestBit(Shr(digit as int, j));
    ShrIsDivision(digit as int, j);
    SmallPowers();
  }

  lemma SmallPowers()
    ensures Pow2(0) == 1 && Pow2(1) == 2 && Pow2(2) == 4 && Pow2(3) == 8
    ensures Pow2(4) == 16 && Pow2(5) == 32 && Pow2(6) == 64 && Pow2(7) == 128
  {
  }

  // A verifier that looks at the position in the published list finds the flag of x there.
  predicate ReadsPublished(records: seq<Record>, x: Record, position: int) {
    var list := Published(records);
    list.Ok? && GetStatus(list.value, 1, position) == Ok(if x.revoked then 1 else 0)
  }

  // What lies at bit j of digit i: part of the code of a digit, or the flag of credential i + 1.
  function FoundAt(records: seq<Record>, i: nat, j: nat): bool {
    j == 4 || j == 5 || (j == 0 && Flag(records, i + 1))
  }

  lemma ReadShown(text: string, records: seq<Record>, i: nat, j: nat)
    requires AllDigits(text) && |text| == |records| && ShowsFlags(text, records)
    requires i < |text| && j < 8
    ensures GetStatus(Utf8(text), 1, 8 * i + j) == Ok(if FoundAt(records, i, j) then 1 else 0)
  {
    ReadDigits(text, i, j);
    assert text[|text| - |records| + (i + 1) - 1] == if Flag(records, i + 1) then '1' else '0';
  }

  lemma {:induction false} NumberedShown(records: seq<Record>)
    requires Numbered(records) && records != []
    ensures BuildList(records).Ok? && |BuildList(records).value| == |records|
    ensures ShowsFlags(BuildList(records).value, records)
  {
    NumberedFits(records);
    PublishedListExact(records);
  }

  lemma {:induction false} ReadPublished(records: seq<Record>, i: nat, j: nat)
    requires Numbered(records) && i < |records| && j < 8
    ensures Published(records).Ok?
    ensures GetStatus(Published(records).value, 1, 8 * i + j) == Ok(if FoundAt(records, i, j) then 1 else 0)
  {
    NumberedShown(records);
    ReadShown(BuildList(records).value, records, i, j);
  }

  lemma {:induction false} FlagThere(records: seq<Record>, x: Record, i: nat, j: nat, position: nat)
    requires Numbered(records) && i < |records| && j < 8 && position == 8 * i + j
    ensures ReadsPublished(records, x, position) <==> x.revoked == FoundAt(records, i, j)
  {
    ReadPublished(records, i, j);
  }

  /**
   The index that a credential carries is its identifier. In any list it finds the flag of
   the credential iff the flag happens to be what lies there: a set bit of the code of a digit,
   the flag of another credential, or a clear bit. The right position would be 8 * (id - 1).
   */
  lemma {:induction false} PublishedIndexExact(records: seq<Record>, x: Record)
    requires Numbered(records) && x in records
    ensures ReadsPublished(records, x, x.id) <==> x.revoked == FoundAt(records, x.id / 8, x.id % 8)
    ensures ReadsPublished(records, x, 8 * (x.id - 1))
  {
    FlagThere(records, x, x.id / 8, x.id % 8, x.id);
    FlagThere(records, x, x.id - 1, 0, 8 * (x.id - 1));
    FlagOfDistinct(records, x);
  }

  // In every list of n credentials, the index of credential id finds its flag.
  ghost predicate IndexReadsFlag(n: nat, id: int) {
    forall records: seq<Record>, x: Record ::
      |records| == n && Numbered(records) && x in records && x.id == id ==> ReadsPublished(records, x, id)
  }

  // Of n credentials only one is revoked, or none.
  function OnlyRevoked(n: nat, id: int): (records: seq<Record>)
    ensures |records| == n
  {
    seq(n, i => Record(i + 1, i + 1 == id))
  }

  lemma OnlyRevokedIsNumbered(n: nat, id: int)
    ensures Numbered(OnlyRevoked(n, id))
  {
  }

  function FailingList(n: nat, id: int): (records: seq<Record>)
    ensures |records| == n
  {
    OnlyRevoked(n, if id % 8 == 4 || id % 8 == 5 then 0 else id)
  }

  lemma {:induction false} FailingListHides(n: nat, id: int)
    requires 1 <= id <= n
    ensures var records := FailingList(n, id);
            Numbered(records) && records[id - 1].id == id
            && records[id - 1].revoked != FoundAt(records, id / 8, id % 8)
  {
    OnlyRevokedIsNumbered(n, if id % 8 == 4 || id % 8 == 5 then 0 else id);
    FlagHasRecord(FailingList(n, id), id / 8 + 1);
  }

  /**
   However many credentials there are, the index that a credential carries is wrong for some
   of their lists.
   */
  lemma {:induction false} IndexFails(n: nat, id: int)
    requires 1 <= id <= n
    ensures !IndexReadsFlag(n, id)
    ensures Numbered(FailingList(n, id)) && !ReadsPublished(FailingList(n, id), FailingList(n, id)[id - 1], id)
  {
    var records := FailingList(n, id);
    FailingListHides(n, id);
    PublishedIndexExact(records, records[id - 1]);
  }
}
