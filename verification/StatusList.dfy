/** Status lists: reading a packed field, and packing one revocation bit for each credential. */
module StatusList {
  import opened Wrappers
  import opened Arithmetic
  import opened Bits

  type byte = x: nat | x < 256 witness 0

  datatype StatusError = ZeroBits | NegativePosition | OutOfRange

  /* get_status */

  lemma InRangeIffFits(size: nat, bits: int, position: nat)
    requires bits != 0
    ensures position < FloorDiv(8 * size, bits) <==> bits > 0 && bits * (position + 1) <= 8 * size
    ensures position < FloorDiv(8 * size, bits) ==> bits * position / 8 < size
  {
    var total := FloorDiv(8 * size, bits);
    if bits > 0 {
      assert bits * total <= 8 * size < bits * (total + 1);
      if position < total {
        MulAtMost(bits, position + 1, total);
        assert bits * (position + 1) == bits * position + bits;
      } else {
        MulAtMost(bits, total + 1, position + 1);
      }
    }
  }

  lemma MulAtMost(d: int, x: int, y: int)
    requires d >= 0 && x <= y
    ensures d * x <= d * y
  {
    if x < y {
      MulAtLeast(y - x, d);
      assert d * y == d * x + (y - x) * d;
    }
  }

  function GetStatus(list: seq<byte>, bits: int, position: int): Result<nat, StatusError> {
    if bits == 0 then Err(ZeroBits)
    else if position < 0 then Err(NegativePosition)
    else if position >= FloorDiv(8 * |list|, bits) then Err(OutOfRange)
    else
      InRangeIffFits(|list|, bits, position);
      var jump: nat := bits * position;
      var mask := Pow2(bits) - 1;
      Ok(And(Shr(list[jump / 8], jump % 8), mask))
  }

  // The list read as one little-endian integer.
  function LittleEndian(list: seq<byte>): nat {
    if list == [] then 0 else list[0] + 256 * LittleEndian(list[1..])
  }

  lemma Pow2Of8()
    ensures Pow2(8) == 256
  {
    assert Pow2(4) == 16;
  }

  lemma ShiftOneByte(low: byte, high: nat)
    ensures Shr(low + 256 * high, 8) == high
    ensures Low(low + 256 * high, 8) == low
  {
    Pow2Of8();
    ShrIsDivision(low + 256 * high, 8);
  }

  lemma {:induction false} ByteOfLittleEndian(list: seq<byte>, i: nat)
    requires i < |list|
    ensures Low(Shr(LittleEndian(list), 8 * i), 8) == list[i]
  {
    ShiftOneByte(list[0], LittleEndian(list[1..]));
    if i > 0 {
      ByteOfLittleEndian(list[1..], i - 1);
      ShrShr(LittleEndian(list), 8, 8 * (i - 1));
    }
  }

  // The field at a position of a list of fields, each of the given width.
  function Field(list: seq<byte>, bits: nat, position: nat): nat {
    LittleEndian(list) / Pow2(bits * position) % Pow2(bits)
  }

  function Min(x: int, y: int): int {
    if x < y then x else y
  }

  lemma AndMask(a: nat, bits: nat, j: nat)
    requires a < 256 && j < 8
    ensures And(Shr(a, j), Pow2(bits) - 1) == Low(Shr(a, j), Min(bits, 8 - j))
  {
    MaskIsLow(Shr(a, j), bits);
    if bits > 8 - j {
      Pow2Of8();
      ShrIsSmall(a, 8 - j, j);
      SmallInAnyWidth(Shr(a, j), 8 - j, bits);
    }
  }

  lemma SmallInAnyWidth(a: nat, k: nat, bits: nat)
    requires a < Pow2(k) && k <= bits
    ensures Low(a, bits) == Low(a, k)
  {
    Pow2Grows(k, bits);
    LowOfSmall(a, k);
    LowOfSmall(a, bits);
  }

  lemma {:induction false} Pow2Grows(k: nat, m: nat)
    requires k <= m
    ensures Pow2(k) <= Pow2(m)
    ensures k < m ==> Pow2(k) < Pow2(m)
    decreases m
  {
    if k < m { Pow2Grows(k, m - 1); }
  }

  /**
   For any field width, a position is accepted iff its field lies within the list, and what is
   read is the part of the field that shares a byte with its lowest bit.
   */
  lemma StatusExact(list: seq<byte>, bits: nat, position: int)
    requires bits > 0
    ensures GetStatus(list, bits, position).Ok? <==> 0 <= position && bits * (position + 1) <= 8 * |list|
    ensures GetStatus(list, bits, position).Ok? ==>
              GetStatus(list, bits, position).value
              == LittleEndian(list) / Pow2(bits * position) % Pow2(Min(bits, 8 - bits * position % 8))
  {
    if position >= 0 {
      InRangeIffFits(|list|, bits, position);
    }
    if GetStatus(list, bits, position).Ok? {
      var jump: nat := bits * position;
      ReadWithinByte(list, jump / 8, jump % 8, bits);
      ShrIsDivision(LittleEndian(list), jump);
      ShrIsDivision(Shr(LittleEndian(list), jump), Min(bits, 8 - jump % 8));
    }
  }

  lemma ReadWithinByte(list: seq<byte>, i: nat, j: nat, bits: nat)
    requires i < |list| && j < 8
    ensures And(Shr(list[i], j), Pow2(bits) - 1) == Low(Shr(LittleEndian(list), 8 * i + j), Min(bits, 8 - j))
  {
    AndMask(list[i], bits, j);
    ByteOfLittleEndian(list, i);
    FieldOfLow(Shr(LittleEndian(list), 8 * i), 8, j, Min(bits, 8 - j));
    ShrShr(LittleEndian(list), 8 * i, j);
  }

  /**
   For the widths of the standard, a status list is an array: reading a position returns the
   field there, and only a position outside the array is refused.
   */
  lemma StatusIsField(list: seq<byte>, bits: nat, position: int)
    requires bits == 1 || bits == 2 || bits == 4 || bits == 8
    ensures GetStatus(list, bits, position)
            == if position < 0 then Err(NegativePosition)
               else if position >= 8 / bits * |list| then Err(OutOfRange)
               else Ok(Field(list, bits, position))
  {
    StatusExact(list, bits, position);
    if position >= 0 {
      StandardWidth(|list|, bits, position);
    }
  }

  lemma StandardWidth(size: nat, bits: nat, position: nat)
    requires bits == 1 || bits == 2 || bits == 4 || bits == 8
    ensures bits * position % 8 + bits <= 8
    ensures bits * (position + 1) <= 8 * size <==> position < 8 / bits * size
  {
    if bits == 1 {
      assert 1 * position == position && 1 * (position + 1) == position + 1;
    } else if bits == 2 {
      Pairs(size, position);
    } else if bits == 4 {
      Halves(size, position);
    } else {
      assert 8 * position % 8 == 0;
    }
  }

  lemma Pairs(size: nat, position: nat)
    ensures 2 * position % 8 + 2 <= 8
    ensures 2 * (position + 1) <= 8 * size <==> position < 4 * size
  {
    assert 2 * position == 8 * (position / 4) + 2 * (position % 4);
  }

  lemma Halves(size: nat, position: nat)
    ensures 4 * position % 8 + 4 <= 8
    ensures 4 * (position + 1) <= 8 * size <==> position < 2 * size
  {
    assert 4 * position == 8 * (position / 2) + 4 * (position % 2);
  }

  // With a width of zero or less nothing is ever read.
  lemma NoWidthNoStatus(list: seq<byte>, bits: int, position: int)
    requires bits <= 0
    ensures GetStatus(list, bits, position)
            == Err(if bits == 0 then ZeroBits else if position < 0 then NegativePosition else OutOfRange)
  {
    if bits < 0 {
      InRangeIffFits(|list|, bits, Max(position, 0));
    }
  }

  function Max(x: int, y: int): int {
    if x < y then y else x
  }

  // Whatever the list holds, reading the position returns its field.
  ghost predicate ReadsField(size: nat, bits: nat, position: nat) {
    forall list: seq<byte> :: |list| == size ==> GetStatus(list, bits, position) == Ok(Field(list, bits, position))
  }

  // Within the list, reading is correct iff the field does not cross a byte boundary.
  lemma ReadsFieldExact(size: nat, bits: nat, position: nat)
    requires bits > 0 && bits * (position + 1) <= 8 * size
    ensures ReadsField(size, bits, position) <==> bits * position % 8 + bits <= 8
  {
    forall list: seq<byte> | |list| == size ensures GetStatus(list, bits, position).Ok? {
      StatusExact(list, bits, position);
    }
    var j := bits * position % 8;
    if j + bits <= 8 {
      forall list: seq<byte> | |list| == size
        ensures GetStatus(list, bits, position) == Ok(Field(list, bits, position))
      {
        StatusExact(list, bits, position);
      }
    } else {
      CrossingFieldIsCut(size, bits, position);
    }
  }

  function AllSet(size: nat): (list: seq<byte>)
    ensures |list| == size
  {
    seq(size, i => 255)
  }

  lemma {:induction false} AllSetIsPow2(size: nat)
    ensures LittleEndian(AllSet(size)) == Pow2(8 * size) - 1
  {
    if size > 0 {
      AllSetIsPow2(size - 1);
      assert AllSet(size)[1..] == AllSet(size - 1);
      Pow2Of8Times(8 * (size - 1));
    }
  }

  lemma Pow2Of8Times(k: nat)
    ensures Pow2(k + 8) == 256 * Pow2(k)
  {
    assert Pow2(k + 2) == 4 * Pow2(k);
    assert Pow2(k + 4) == 4 * Pow2(k + 2);
    assert Pow2(k + 6) == 4 * Pow2(k + 4);
    assert Pow2(k + 8) == 4 * Pow2(k + 6);
  }

  lemma {:induction false} FieldOfOnes(m: nat, j: nat, width: nat)
    requires j + width <= m
    ensures Low(Shr(Pow2(m) - 1, j), width) == Pow2(width) - 1
    decreases m
  {
    if m > 0 {
      assert (Pow2(m) - 1) / 2 == Pow2(m - 1) - 1 && (Pow2(m) - 1) % 2 == 1;
      if j > 0 {
        FieldOfOnes(m - 1, j - 1, width);
      } else if width > 0 {
        FieldOfOnes(m - 1, 0, width - 1);
      }
    }
  }

  lemma CrossingFieldIsCut(size: nat, bits: nat, position: nat)
    requires bits > 0 && bits * (position + 1) <= 8 * size && bits * position % 8 + bits > 8
    ensures GetStatus(AllSet(size), bits, position) != Ok(Field(AllSet(size), bits, position))
  {
    var list, jump := AllSet(size), bits * position;
    var width := 8 - jump % 8;
    assert bits * (position + 1) == jump + bits;
    StatusExact(list, bits, position);
    AllSetIsPow2(size);
    FieldOfOnes(8 * size, jump, width);
    FieldOfOnes(8 * size, jump, bits);
    ShrIsDivision(LittleEndian(list), jump);
    ShrIsDivision(Shr(LittleEndian(list), jump), width);
    ShrIsDivision(Shr(LittleEndian(list), jump), bits);
    Pow2Grows(width, bits);
  }
}
