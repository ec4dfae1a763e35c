/** The radiotap field iterator of udp-test/radiotap-parser.c against a declarative layout of the header. */
module Radiotap {
  const HEADER: nat := 8        // size of the fixed part
  const FIELDS: nat := 18       // the fields whose sizes are known
  const EXTENSION: nat := 31

  /** The upper and the lower half of the bytes of rt_sizes. */
  function Alignment(field: nat): (a: nat)
    requires field < FIELDS
    ensures a in {1, 2, 8}
  {
    match field
    case 0 => 8
    case 3 => 2 case 4 => 2 case 7 => 2 case 8 => 2 case 9 => 2 case 14 => 2 case 15 => 2
    case _ => 1
  }

  function Length(field: nat): (n: nat)
    requires field < FIELDS
    ensures n >= 1
  {
    match field
    case 0 => 8
    case 3 => 4
    case 4 => 2 case 7 => 2 case 8 => 2 case 9 => 2 case 14 => 2 case 15 => 2
    case _ => 1
  }

  // ---------- the layout ----------

  /** Which fields are present, as the bits of it_present. */
  type Present = p: seq<bool> | |p| == 32 witness NOTHING

  const NOTHING: seq<bool> :=
    [false, false, false, false, false, false, false, false,
     false, false, false, false, false, false, false, false,
     false, false, false, false, false, false, false, false,
     false, false, false, false, false, false, false, false]

  ghost predicate Aligned(offset: nat, field: nat)
    requires field < FIELDS
  {
    offset % Alignment(field) == 0
  }

  /** The least aligned offset for a field at or after `offset`. */
  function Place(offset: nat, field: nat): (at: nat)
    requires field < FIELDS
  {
    var a := Alignment(field);
    if offset % a == 0 then offset else offset + a - offset % a
  }

  lemma PlaceIsLeast(offset: nat, field: nat, other: nat)
    requires field < FIELDS
    ensures Aligned(Place(offset, field), field) && offset <= Place(offset, field)
    ensures offset <= other && Aligned(other, field) ==> Place(offset, field) <= other
  {
    hide Alignment;
    LeastEven(offset, other);
    LeastMultipleOfEight(offset, other);
  }

  lemma LeastEven(offset: nat, other: nat)
    ensures var at := if offset % 2 == 0 then offset else offset + 2 - offset % 2;
            at % 2 == 0 && offset <= at && (offset <= other && other % 2 == 0 ==> at <= other)
  {
  }

  lemma LeastMultipleOfEight(offset: nat, other: nat)
    ensures var at := if offset % 8 == 0 then offset else offset + 8 - offset % 8;
            at % 8 == 0 && offset <= at && (offset <= other && other % 8 == 0 ==> at <= other)
  {
  }

  /** The end of the fields below `field`. */
  function End(present: Present, field: nat): (end: nat)
    requires field <= FIELDS
    ensures end >= HEADER
  {
    if field == 0 then HEADER
    else if present[field - 1] then Place(End(present, field - 1), field - 1) + Length(field - 1)
    else End(present, field - 1)
  }

  lemma NextEnd(present: Present, field: nat)
    requires field < FIELDS
    ensures End(present, field + 1)
         == if present[field] then Offset(present, field) + Length(field) else End(present, field)
  {
  }

  function Offset(present: Present, field: nat): nat
    requires field < FIELDS
  {
    Place(End(present, field), field)
  }

  lemma {:induction false} EndGrows(present: Present, i: nat, j: nat)
    requires i <= j <= FIELDS
    ensures End(present, i) <= End(present, j)
    ensures i < j && present[i] ==> Offset(present, i) + Length(i) <= End(present, j)
    decreases j
  {
    if i < j {
      PlaceIsLeast(End(present, j - 1), j - 1, 0);
      EndGrows(present, i, j - 1);
    }
  }

  /** Present fields do not overlap, each lies behind the fixed part, and each is aligned. */
  lemma FieldsAreDisjoint(present: Present, i: nat, j: nat)
    requires i < j < FIELDS && present[i] && present[j]
    ensures HEADER <= Offset(present, i) && Offset(present, i) + Length(i) <= Offset(present, j)
    ensures Aligned(Offset(present, i), i) && Aligned(Offset(present, j), j)
  {
    EndGrows(present, i, j);
    PlaceIsLeast(End(present, i), i, 0);
    PlaceIsLeast(End(present, j), j, 0);
  }

  /** The present fields from..to, in order, up to the first one that does not end inside the header. */
  function Fields(present: Present, length: nat, from: nat, to: nat): seq<nat>
    requires from <= to <= FIELDS
    decreases FIELDS - from
  {
    if from == to then []
    else if !present[from] then Fields(present, length, from + 1, to)
    else if End(present, from + 1) > length then []
    else [from] + Fields(present, length, from + 1, to)
  }

  /** All of them end inside the header. */
  predicate Fits(present: Present, length: nat, from: nat, to: nat)
    requires from <= to <= FIELDS
  {
    forall i :: from <= i < to && present[i] ==> End(present, i + 1) <= length
  }

  /** Exploring in two stages is exploring at once, if the first stage did not fail. */
  lemma {:induction false} FieldsContinue(present: Present, length: nat, from: nat, middle: nat, to: nat)
    requires from <= middle <= to <= FIELDS && Fits(present, length, from, middle)
    ensures Fields(present, length, from, to)
         == Fields(present, length, from, middle) + Fields(present, length, middle, to)
    decreases FIELDS - from
  {
    if from < middle {
      FieldsContinue(present, length, from + 1, middle, to);
    }
  }

  /** The first present field at or after `from`. */
  predicate IsFirst(present: Present, from: nat, field: nat) {
    && from <= field < FIELDS && present[field]
    && forall i :: from <= i < field ==> !present[i]
  }

  lemma {:induction false} FieldsSkip(present: Present, length: nat, from: nat, middle: nat, to: nat)
    requires from <= middle <= to <= FIELDS && forall i :: from <= i < middle ==> !present[i]
    ensures Fields(present, length, from, to) == Fields(present, length, middle, to)
    ensures Fits(present, length, from, middle) && Fields(present, length, to, to) == []
    decreases FIELDS - from
  {
    if from < middle {
      FieldsSkip(present, length, from + 1, middle, to);
    }
  }

  /** What one call contributes to the whole exploration. */
  lemma FieldFound(present: Present, length: nat, from: nat, field: nat, to: nat)
    requires IsFirst(present, from, field) && field < to <= FIELDS && End(present, field + 1) <= length
    ensures Fields(present, length, from, to) == [field] + Fields(present, length, field + 1, to)
    ensures Fits(present, length, from, field + 1)
  {
    FieldsSkip(present, length, from, field, to);
  }

  lemma NoFieldFound(present: Present, length: nat, from: nat, field: nat, to: nat)
    requires IsFirst(present, from, field) && field < to <= FIELDS && End(present, field + 1) > length
    ensures Fields(present, length, from, to) == []
    ensures !Fits(present, length, from, to)
  {
    FieldsSkip(present, length, from, field, to);
    assert from <= field < to && present[field];
  }

  lemma FitsJoin(present: Present, length: nat, from: nat, middle: nat, to: nat)
    requires from <= middle <= to <= FIELDS
    ensures Fits(present, length, from, to)
        <==> Fits(present, length, from, middle) && Fits(present, length, middle, to)
  {
  }

  lemma {:induction false} AbsentTakeNoRoom(present: Present, from: nat, field: nat)
    requires from <= field <= FIELDS && forall i :: from <= i < field ==> !present[i]
    ensures End(present, field) == End(present, from)
    decreases field
  {
    if from < field {
      AbsentTakeNoRoom(present, from, field - 1);
    }
  }

  /**
    The layout without recursion: the first present field is at the least aligned offset behind the fixed part,
    and each later one at the least aligned offset behind its predecessor.
  */
  lemma FirstIsLeast(present: Present, field: nat, other: nat)
    requires IsFirst(present, 0, field) && HEADER <= other && Aligned(other, field)
    ensures Aligned(Offset(present, field), field) && HEADER <= Offset(present, field) <= other
  {
    AbsentTakeNoRoom(present, 0, field);
    PlaceIsLeast(HEADER, field, other);
  }

  lemma NextIsLeast(present: Present, before: nat, field: nat, other: nat)
    requires before < FIELDS && present[before] && IsFirst(present, before + 1, field)
    requires Offset(present, before) + Length(before) <= other && Aligned(other, field)
    ensures Aligned(Offset(present, field), field)
    ensures Offset(present, before) + Length(before) <= Offset(present, field) <= other
  {
    AbsentTakeNoRoom(present, before + 1, field);
    PlaceIsLeast(End(present, before + 1), field, other);
  }

  // ---------- the sizes of the fields ----------

  /** rt_sizes */
  const SIZES: seq<nat> :=
    [0x88, 0x11, 0x11, 0x24, 0x22, 0x11, 0x11, 0x22, 0x22, 0x22, 0x11, 0x11, 0x11, 0x11, 0x22, 0x22, 0x11, 0x11]

  /** The upper half of each byte is the alignment of its field, the lower half the length. */
  lemma SizesAreBytes(field: nat)
    ensures |SIZES| == FIELDS == 18
    ensures field < 18 ==> Alignment(field) == SIZES[field] / 16 && Length(field) == SIZES[field] % 16
  {
  }

  /** A header with the fields 0, 1, 2, 3 and 5 has them at 8, 16, 17, 18 and 22; with 1 and 3 only, at 8 and 10. */
  lemma OffsetsOfCommonHeaders()
    ensures var p: Present := NOTHING[0 := true][1 := true][2 := true][3 := true][5 := true];
            && Offset(p, 0) == 8 && Offset(p, 1) == 16 && Offset(p, 2) == 17 && Offset(p, 3) == 18
            && Offset(p, 5) == 22 && End(p, 18) == 23
    ensures var q: Present := NOTHING[1 := true][3 := true];
            Offset(q, 1) == 8 && Offset(q, 3) == 10 && End(q, 18) == 14
  {
    var p: Present := NOTHING[0 := true][1 := true][2 := true][3 := true][5 := true];
    var q: Present := NOTHING[1 := true][3 := true];
    assert End(p, 0) == 8 && End(p, 1) == 16 && End(p, 2) == 17 && End(p, 3) == 18 && End(p, 4) == 22;
    assert End(p, 5) == 22 && End(p, 6) == 23;
    AbsentTakeNoRoom(p, 6, 18);
    assert End(q, 0) == 8 && End(q, 1) == 8 && End(q, 2) == 9 && End(q, 3) == 9 && End(q, 4) == 14;
    AbsentTakeNoRoom(q, 4, 18);
  }

  // ---------- the iterator ----------

  datatype Header = Header(version: nat, length: nat, present: Present)

  /** The results of the iterator: a field, end of the exploration (-1), or -EINVAL. */
  datatype Next = Field(index: nat) | Done | Invalid

  /** struct ieee80211_radiotap_iterator; positions are offsets from the header. */
  class Iterator {
    var length: nat
    var next: nat
    var arg: nat
    var bitmap: seq<bool>   // the fields from `index` on
    var index: nat
    ghost var header: Header

    /** The iterator stands behind the fields below index. */
    ghost predicate Valid()
      reads this
    {
      && length == header.length && index <= FIELDS
      && bitmap == header.present[index..] && next == End(header.present, index)
    }

    constructor ()
    {
      length, next, arg, bitmap, index := 0, 0, 0, [], 0;
      header := Header(0, 0, NOTHING);
    }

    /** ieee80211_radiotap_iterator_init; `available` is the size of the memory with the header. */
    method Init(header: Header, available: int) returns (ok: bool)
      modifies this
      ensures ok <==> header.version == 0 && header.length <= available && !header.present[31]
      ensures ok ==> Valid() && this.header == header && index == 0
    {
      if header.version != 0 {
        return false;
      }
      if available < header.length {
        return false;
      }
      bitmap := header.present;
      if bitmap[EXTENSION] {
        return false;
      }
      length := header.length;
      next := HEADER;
      arg := 0;
      index := 0;
      this.header := header;
      return true;
    }

    /** ieee80211_radiotap_iterator_next */
    method Advance(maxIndex: nat) returns (r: Next)
      requires Valid() && maxIndex < FIELDS
      modifies this
      ensures header == old(header) && length == old(length)
      ensures r != Invalid ==> Valid() && index >= old(index)
      ensures r.Field? ==>
        && r.index <= maxIndex && index == r.index + 1 && IsFirst(header.present, old(index), r.index)
        && arg == Offset(header.present, r.index) && arg + Length(r.index) == next <= length
      ensures r == Done ==>
        && index == (if maxIndex + 1 > old(index) then maxIndex + 1 else old(index))
        && forall i :: old(index) <= i <= maxIndex ==> !header.present[i]
      ensures r == Invalid ==> index <= maxIndex && IsFirst(header.present, old(index), index)
      ensures r == Invalid ==> End(header.present, index + 1) > length
    {
      hide End, Alignment, Length;
      while index <= maxIndex
        invariant Valid() && old(index) <= index && (index <= maxIndex + 1 || index == old(index))
        invariant header == old(header) && length == old(length)
        invariant forall i :: old(index) <= i < index ==> !header.present[i]
        decreases FIELDS - index
      {
        NextEnd(header.present, index);
        var found := bitmap[0];
        if found {
          var a := Alignment(index);
          if next % a != 0 {
            arg := next + a - next % a;
          } else {
            arg := next;
          }
          next := arg + Length(index);
          if next > length {
            return Invalid;
          }
        }
        index := index + 1;
        bitmap := bitmap[1..];
        if found {
          return Field(index - 1);
        }
      }
      return Done;
    }

    /** The caller's loop: all fields up to maxIndex. */
    method Explore(maxIndex: nat) returns (fields: seq<nat>, last: Next)
      requires Valid() && maxIndex < FIELDS && index <= maxIndex + 1
      modifies this
      ensures header == old(header)
      ensures fields == Fields(header.present, header.length, old(index), maxIndex + 1)
      ensures last in {Done, Invalid}
      ensures last == Done <==> Fits(header.present, header.length, old(index), maxIndex + 1)
      ensures last == Done ==> Valid() && index == maxIndex + 1
    {
      hide Fields, Fits, End;
      fields := [];
      ghost var start, to := index, maxIndex + 1;
      ghost var present, size := header.present, header.length;
      FieldsSkip(present, size, start, start, start);
      while true
        invariant Valid() && header == old(header) && start <= index <= to
        invariant fields + Fields(present, size, index, to) == Fields(present, size, start, to)
        invariant Fits(present, size, start, index)
        decreases FIELDS - index
      {
        ghost var before := index;
        last := Advance(maxIndex);
        match last {
          case Field(i) =>
            FieldFound(present, size, before, i, to);
            FitsJoin(present, size, start, before, index);
            fields := fields + [i];
          case Done =>
            FieldsSkip(present, size, before, to, to);
            FitsJoin(present, size, start, before, to);
            return;
          case Invalid =>
            NoFieldFound(present, size, before, index, to);
            FitsJoin(present, size, start, before, to);
            return;
        }
      }
    }
  }
}
