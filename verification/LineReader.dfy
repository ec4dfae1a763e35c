/** The double-buffered line reader of udp-test/zutil.c, on top of a supplier of decompressed chunks. */
module LineReader {
  const NEWLINE: char := '\n'
  const END: char := '\0'

  /** What one refill of half the buffer gives. */
  datatype Refill = Chunk(data: seq<char>) | Broken

  datatype Refilled = Filled | EndOfStream | Error

  /** The returned pointer and length, or the kind of failure. */
  datatype Result = Line(at: nat, len: int) | EndOfFile | Failure | NoInput

  function Flatten(refills: seq<Refill>): seq<char> {
    if refills == [] || refills[0].Broken? then [] else refills[0].data + Flatten(refills[1..])
  }

  lemma FlattenFirst(refills: seq<Refill>)
    requires refills != [] && refills[0].Chunk?
    ensures Flatten(refills) == refills[0].data + Flatten(refills[1..])
  {
  }

  /** The position of the first newline, or the length if there is none. */
  function FirstNewline(s: seq<char>): (n: nat)
    ensures n <= |s| && (n < |s| ==> s[n] == NEWLINE) && forall i :: 0 <= i < n ==> s[i] != NEWLINE
  {
    if s == [] || s[0] == NEWLINE then 0 else 1 + FirstNewline(s[1..])
  }

  lemma FirstNewlineIs(s: seq<char>, n: nat)
    requires n < |s| && s[n] == NEWLINE && forall i :: 0 <= i < n ==> s[i] != NEWLINE
    ensures FirstNewline(s) == n
  {
  }

  lemma NoNewline(s: seq<char>)
    requires forall i :: 0 <= i < |s| ==> s[i] != NEWLINE
    ensures FirstNewline(s) == |s|
  {
  }

  lemma FirstNewlineAppends(a: seq<char>, b: seq<char>)
    ensures FirstNewline(a + b) == if FirstNewline(a) < |a| then FirstNewline(a) else |a| + FirstNewline(b)
  {
    var n := if FirstNewline(a) < |a| then FirstNewline(a) else |a| + FirstNewline(b);
    if n < |a + b| {
      FirstNewlineIs(a + b, n);
    }
  }

  /** The first line of s, of length n, was delivered and `rest` is left. */
  ghost predicate Delivers(s: seq<char>, line: seq<char>, rest: seq<char>) {
    && FirstNewline(s) < |s|
    && line == s[..FirstNewline(s)] && rest == s[FirstNewline(s) + 1..]
  }

  lemma DeliversMore(a: seq<char>, b: seq<char>, line: seq<char>, rest: seq<char>)
    requires Delivers(a, line, rest)
    ensures Delivers(a + b, line, rest + b)
  {
    FirstNewlineAppends(a, b);
  }

  lemma Slices(left: seq<char>, data: seq<char>, more: seq<char>, n: nat)
    requires n < |data|
    ensures (left + (data + more))[..|left| + n] == left + data[..n]
    ensures (left + (data + more))[|left| + n + 1..] == data[n + 1..] + more
  {
  }

  /** A line that starts in `left` and ends in `data`. */
  lemma Completes(left: seq<char>, data: seq<char>, more: seq<char>)
    requires FirstNewline(left) == |left| && FirstNewline(data) < |data|
    ensures var n := FirstNewline(data);
            Delivers(left + (data + more), left + data[..n], data[n + 1..] + more)
  {
    FirstNewlineAppends(left, data + more);
    FirstNewlineAppends(data, more);
    hide FirstNewline;
    Slices(left, data, more, FirstNewline(data));
  }

  /** What is delivered from `left` and `data` together. */
  lemma DeliversBoth(left: seq<char>, data: seq<char>, line: seq<char>, rest: seq<char>)
    requires FirstNewline(left) == |left| && FirstNewline(data) < |data|
    requires Delivers(left + data, line, rest)
    ensures line == left + data[..FirstNewline(data)] && rest == data[FirstNewline(data) + 1..]
  {
    Completes(left, data, []);
    assert data + [] == data && data[FirstNewline(data) + 1..] + [] == data[FirstNewline(data) + 1..];
  }

  lemma EndsInData(left: seq<char>, data: seq<char>)
    requires FirstNewline(left) == |left| && FirstNewline(data) < |data|
    ensures FirstNewline(left + data) < |left + data|
  {
    FirstNewlineAppends(left, data);
  }

  lemma Completing(left: seq<char>, data: seq<char>, more: seq<char>)
    requires FirstNewline(left) == |left|
    ensures var n := FirstNewline(data);
            n < |data| ==> Delivers(left + (data + more), left + data[..n], data[n + 1..] + more)
  {
    if FirstNewline(data) < |data| {
      Completes(left, data, more);
    }
  }

  /**
    A call that finds no newline in the buffer and gets a refill without one: what was left unread, the refill,
    which half of the buffer held the unread text, where that ended, and the cell at the length of the refill.
  */
  datatype LastRefill =
    LastRefill(left: seq<char>, data: seq<char>, secondHalf: bool, end: nat, size: nat, behind: char)

  lemma JoinedAt(cells: seq<char>, from: nat, middle: nat, to: nat)
    requires from <= middle <= to <= |cells|
    ensures cells[from..to] == cells[from..middle] + cells[middle..to]
  {
  }

  /** zutil_read and zread_line */
  class Reader {
    const size: nat            // IN_BUF_SIZE
    const buffer: array<char>  // two halves and one more byte
    var start: nat
    var end: nat
    var swapped: bool          // the second half holds the latest data
    var open: bool             // the input file was not closed
    var availOut: nat
    var refills: seq<Refill>

    /** A reader as zinit_read leaves it, with its first refill in the first half of a zeroed buffer. */
    constructor (size: nat, first: seq<char>, refills: seq<Refill>)
      requires |first| <= size && size > 0
      requires forall i :: 0 <= i < |refills| ==> refills[i].Chunk? ==> |refills[i].data| <= size
      ensures Valid() && open && !swapped && this.size == size && this.refills == refills && fresh(buffer)
      ensures start == 0 && end == |first| && buffer[..] == first + seq(2 * size + 1 - |first|, _ => END)
    {
      this.size, this.refills := size, refills;
      buffer := new char[2 * size + 1](i => if 0 <= i < |first| then first[i] else END);
      start, end, swapped, open, availOut := 0, |first|, false, true, size - |first|;
    }

    ghost predicate Sized()
      reads this
    {
      && size > 0 && buffer.Length == 2 * size + 1
      && forall i :: 0 <= i < |refills| ==> refills[i].Chunk? ==> |refills[i].data| <= size
    }

    ghost predicate Valid()
      reads this
    {
      && Sized() && start <= end
      && (if swapped then size <= start && end <= 2 * size else end <= size)
    }

    /** What the caller has not read yet. */
    ghost function Unread(): seq<char>
      reads this, buffer
      requires Valid()
    {
      buffer[start..end] + if open then Flatten(refills) else []
    }

    /** zutil_read_input, seen from outside */
    method ReadInput() returns (r: Refilled)
      requires Sized()
      modifies this, buffer
      ensures start == old(start) && end == old(end)
      ensures old(refills) == [] ==>
        r == EndOfStream && !open && refills == [] && swapped == old(swapped) && buffer[..] == old(buffer[..])
      ensures old(refills) != [] ==>
        && open == old(open) && refills == old(refills)[1..] && swapped == !old(swapped)
        && (old(refills)[0].Broken? ==> r == Error && buffer[..] == old(buffer[..]))
        && (old(refills)[0].Chunk? ==>
            var data, at := old(refills)[0].data, if swapped then size else 0;
            && r == Filled && availOut == size - |data|
            && buffer[at..at + |data|] == data
            && forall i :: 0 <= i < buffer.Length && !(at <= i < at + |data|) ==> buffer[i] == old(buffer[i]))
    {
      if refills == [] {
        open := false;
        return EndOfStream;
      }
      swapped := !swapped;
      var refill := refills[0];
      refills := refills[1..];
      if refill.Broken? {
        return Error;
      }
      var at := if swapped then size else 0;
      forall i | 0 <= i < |refill.data| {
        buffer[at + i] := refill.data[i];
      }
      availOut := size - |refill.data|;
      return Filled;
    }

    /** memchr for a newline in the cells from..to; `to` if there is none */
    method Find(from: nat, to: nat) returns (next: nat)
      requires from <= to <= buffer.Length
      ensures next == from + FirstNewline(buffer[from..to])
    {
      hide FirstNewline;
      next := from;
      ghost var cells := buffer[from..to];
      while next < to && buffer[next] != NEWLINE
        invariant from <= next <= to && forall i :: 0 <= i < next - from ==> cells[i] != NEWLINE
      {
        next := next + 1;
      }
      if next < to {
        FirstNewlineIs(cells, next - from);
      } else {
        NoNewline(cells);
      }
    }

    /** memmove */
    method Move(to: nat, from: nat, n: nat)
      requires to + n <= buffer.Length && from + n <= buffer.Length
      modifies buffer
      ensures buffer[to..to + n] == old(buffer[from..from + n])
      ensures forall i :: 0 <= i < buffer.Length && !(to <= i < to + n) ==> buffer[i] == old(buffer[i])
    {
      forall i | 0 <= i < n {
        buffer[to + i] := buffer[from + i];
      }
    }

    /** The result is a complete line, terminated in the buffer. */
    ghost predicate Returned(r: Result, line: seq<char>)
      reads this, buffer
    {
      && r.Line? && r.len == |line| && r.at + |line| < buffer.Length
      && buffer[r.at..r.at + |line|] == line && buffer[r.at + |line|] == END
    }

    /**
      The outcome of a call with such a last refill.  A full refill is a line that is too long.  Otherwise the text
      is taken to end here, and all of it is returned at r.at, unless nothing is left or its two parts are too long
      to be put together.  The length is too large by what is between the unread text and the end of the first half,
      if the text was there.  The text is terminated, except when all of it is a refill of the first half.
    */
    ghost predicate EndsText(b: LastRefill, r: Result)
      reads this, buffer
    {
      var text := b.left + b.data;
      if |b.data| >= b.size then r == Failure
      else if text == [] then r == EndOfFile
      else if b.secondHalf && b.left != [] && b.data != [] && |text| >= b.size then r == Failure
      else
        && r.Line? && r.at + |text| < buffer.Length && buffer[r.at..r.at + |text|] == text
        && r.len == |text| + (if b.secondHalf then 0 else b.size - b.end)
        && buffer[r.at + |text|] == if b.secondHalf && b.left == [] then b.behind else END
    }

    /** The cell of the first half behind n characters; a full half has none. */
    ghost function CellAt(n: nat): char
      reads this, buffer
      requires Sized()
    {
      if n < size then buffer[n] else END
    }

    /** Terminate the line that starts at cur and ends at next, and move on behind it. */
    method Terminate(cur: nat, to: nat, next: nat) returns (r: Result)
      requires cur <= next < to < buffer.Length && next == cur + FirstNewline(buffer[cur..to])
      modifies `start, buffer
      ensures var u := old(buffer[cur..to]);
              && r == Line(cur, FirstNewline(u)) && start == next + 1
              && Returned(r, u[..FirstNewline(u)]) && Delivers(u, u[..FirstNewline(u)], buffer[start..to])
      ensures forall i :: 0 <= i < buffer.Length && i != next ==> buffer[i] == old(buffer[i])
    {
      hide FirstNewline;
      ghost var u := buffer[cur..to];
      buffer[next] := END;
      start := next + 1;
      r := Line(cur, next - cur);
      assert buffer[start..to] == u[FirstNewline(u) + 1..] && buffer[cur..next] == u[..FirstNewline(u)];
    }

    /** Look for the end of a line in the cells cur..to. */
    method Cut(cur: nat, to: nat) returns (r: Result)
      requires cur <= to < buffer.Length
      modifies `start, buffer
      ensures var u := old(buffer[cur..to]);
              if FirstNewline(u) < |u| then
                && r == Line(cur, FirstNewline(u)) && start == cur + FirstNewline(u) + 1 <= to
                && Returned(r, u[..FirstNewline(u)]) && Delivers(u, u[..FirstNewline(u)], buffer[start..to])
              else r == NoInput && start == old(start) && buffer[..] == old(buffer[..])
      ensures forall i :: 0 <= i < buffer.Length && i != cur + FirstNewline(old(buffer[cur..to])) ==>
        buffer[i] == old(buffer[i])
    {
      hide FirstNewline, Returned, Delivers;
      r := NoInput;
      var next := Find(cur, to);
      if next != to {
        r := Terminate(cur, to, next);
      }
    }

    /** After a refill of the second half: what was left in the first half is moved directly before it. */
    method Attach(ghost left: seq<char>, ghost data: seq<char>) returns (cur: nat)
      requires Sized() && start <= end <= size && left == buffer[start..end]
      requires |data| <= size && availOut == size - |data| && buffer[size..size + |data|] == data
      modifies `end, buffer
      ensures end == size + |data| && cur == size - |left| && buffer[cur..end] == left + data
      ensures forall i :: 0 <= i < cur ==> buffer[i] == old(buffer[i])
    {
      if end != size {
        cur := size - (end - start);
        Move(cur, start, end - start);
        assert forall i :: size <= i < size + |data| ==> buffer[i] == data[i - size];
      } else {
        cur := start;
      }
      end := 2 * size - availOut;
      assert buffer[cur..size] == left && buffer[size..end] == data;
      JoinedAt(buffer[..], cur, size, end);
    }

    /** No newline in the second half: the text is taken to be at its end if the refill was not a full one. */
    method Leftover(cur: nat, ghost b: LastRefill) returns (r: Result)
      requires Sized() && b.size == size && !b.secondHalf && start + |b.left| == b.end <= size && |b.data| <= size
      requires cur == size - |b.left| && end == size + |b.data| && availOut == size - |b.data|
      requires buffer[cur..end] == b.left + b.data
      modifies `start, buffer
      ensures EndsText(b, r) && (r.Line? ==> start == end)
    {
      if availOut == 0 {
        return Failure;
      }
      if cur == end {
        return EndOfFile;
      }
      buffer[end] := END;
      r := Line(cur, end - start);
      start := end;
    }

    method FromSecondHalf(ghost left: seq<char>, ghost data: seq<char>) returns (r: Result)
      requires Sized() && swapped && start <= end <= size && left == buffer[start..end]
      requires |data| <= size && availOut == size - |data| && buffer[size..size + |data|] == data
      modifies `start, `end, buffer
      ensures var n := FirstNewline(data);
              FirstNewline(left) == |left| && n < |data| ==>
                && Valid() && Returned(r, left + data[..n]) && buffer[start..end] == data[n + 1..]
                && forall i :: 0 <= i < size - |left| ==> buffer[i] == old(buffer[i])
      ensures FirstNewline(left) == |left| && FirstNewline(data) == |data| ==>
        && EndsText(LastRefill(left, data, false, old(end), size, old(CellAt(|data|))), r)
        && (r.Line? ==> Valid() && start == end)
    {
      hide FirstNewline, Returned, Delivers, EndsText, CellAt;
      ghost var b := LastRefill(left, data, false, end, size, CellAt(|data|));
      var cur := Attach(left, data);
      ghost var u := left + data;
      r := Cut(cur, end);
      if FirstNewline(left) == |left| {
        FirstNewlineAppends(left, data);
        if FirstNewline(data) < |data| {
          EndsInData(left, data);
          DeliversBoth(left, data, u[..FirstNewline(u)], buffer[start..end]);
        }
      }
      if r == NoInput {
        r := Leftover(cur, b);
      }
    }

    /** The line that starts in the second half and ends in the first one, put together in the second half. */
    method Join(rest: nat, next: nat)
      requires buffer.Length == 2 * size + 1 && size <= start && start + rest <= 2 * size && rest + next < size
      modifies buffer
      ensures buffer[size..size + (rest + next)] == old(buffer[start..start + rest]) + old(buffer[..next])
      ensures buffer[size + (rest + next)] == END
      ensures forall i :: 0 <= i < size ==> buffer[i] == old(buffer[i])
    {
      ghost var left, line := buffer[start..start + rest], buffer[..next];
      forall i | 0 <= i < rest {
        buffer[size + i] := buffer[start + i];
      }
      assert forall i :: size <= i < size + rest ==> buffer[i] == left[i - size];
      assert forall i :: 0 <= i < next ==> buffer[i] == line[i];
      forall i | 0 <= i < next {
        buffer[size + rest + i] := buffer[i];
      }
      assert forall i :: size + rest <= i < size + rest + next ==> buffer[i] == line[i - size - rest];
      buffer[size + (rest + next)] := END;
      assert forall i :: 0 <= i < rest + next ==> buffer[size..size + (rest + next)][i] == (left + line)[i];
    }

    method TakeJoined(ghost left: seq<char>, ghost line: seq<char>, ghost behind: seq<char>, next: nat)
      returns (r: Result)
      requires Sized() && !swapped && size <= start < end <= 2 * size && left == buffer[start..end]
      requires |left| + next < size && 0 <= availOut <= size && next + 1 + |behind| == size - availOut
      requires buffer[..next] == line && buffer[next + 1..size - availOut] == behind
      modifies `start, `end, buffer
      ensures Valid() && Returned(r, left + line) && buffer[start..end] == behind
    {
      var rest := end - start;
      assert forall i :: next + 1 <= i < size - availOut ==> buffer[i] == behind[i - next - 1];
      assert rest == |left| && buffer[start..start + rest] == left;
      Join(rest, next);
      start := next + 1;
      end := size - availOut;
      r := Line(size, rest + next);
      assert buffer[start..end] == behind;
    }

    /** After a refill of the first half with a newline: what was left in the second half comes before it. */
    method TakeAcross(ghost left: seq<char>, ghost data: seq<char>, next: nat) returns (r: Result)
      requires Sized() && !swapped && size <= start <= end <= 2 * size && left == buffer[start..end]
      requires |data| <= size && availOut == size - |data| && buffer[..|data|] == data
      requires next == FirstNewline(data) < |data|
      modifies `start, `end, buffer
      ensures left == [] || |left| + next < size ==>
        && Valid() && Returned(r, left + data[..next]) && buffer[start..end] == data[next + 1..]
      ensures left != [] && |left| + next >= size ==> r == Failure
    {
      buffer[next] := END;
      assert buffer[next + 1..|data|] == data[next + 1..] && buffer[..next] == data[..next];
      if start < end {
        if end - start + next >= size {
          return Failure;
        }
        r := TakeJoined(left, data[..next], data[next + 1..], next);
      } else {
        start := next + 1;
        end := size - availOut;
        r := Line(0, next);
        assert left + data[..next] == data[..next];
      }
    }

    /** What was left in the second half and a refill of the first half are the last text. */
    method JoinLast(ghost left: seq<char>, ghost data: seq<char>) returns (r: Result)
      requires Sized() && size <= start < end <= 2 * size && left == buffer[start..end]
      requires 0 < |data| && availOut == size - |data| && |left| + |data| < size && buffer[..|data|] == data
      modifies `start, `end, buffer
      ensures r == Line(size, |left + data|) && start == end
      ensures buffer[size..size + |left + data|] == left + data && buffer[size + |left + data|] == END
    {
      var rest, last := end - start, size - availOut;
      assert start + rest == end;
      Join(rest, last);
      start := size;
      end := size;
      r := Line(size, rest + last);
    }

    /** No newline in the refill of the first half either. */
    method EndInFirstHalf(ghost left: seq<char>, ghost data: seq<char>) returns (r: Result)
      requires Sized() && !swapped && size <= start <= end <= 2 * size && left == buffer[start..end]
      requires |data| <= size && availOut == size - |data| && buffer[..|data|] == data
      modifies `start, `end, buffer
      ensures EndsText(LastRefill(left, data, true, old(end), size, old(CellAt(|data|))), r)
      ensures r.Line? ==> start == end
    {
      assert data == [] ==> left + data == left;
      assert left == [] ==> left + data == data;
      if availOut == 0 {
        r := Failure;
      } else if availOut == size {
        if start != end {
          buffer[end] := END;
          r := Line(start, end - start);
          start := end;
        } else {
          r := EndOfFile;
        }
      } else if start == end {
        r := Line(0, size - availOut);
        assert buffer[0..0 + |data|] == buffer[..|data|];
      } else if end - start + (size - availOut) >= size {
        r := Failure;
      } else {
        r := JoinLast(left, data);
      }
    }

    /** After a refill of the first half. */
    method FromFirstHalf(ghost left: seq<char>, ghost data: seq<char>) returns (r: Result)
      requires Sized() && !swapped && size <= start <= end <= 2 * size && left == buffer[start..end]
      requires |data| <= size && availOut == size - |data| && buffer[..|data|] == data
      modifies `start, `end, buffer
      ensures var n := FirstNewline(data);
              && (n < |data| && (left == [] || |left| + n < size) ==>
                  Valid() && Returned(r, left + data[..n]) && buffer[start..end] == data[n + 1..])
              && (n < |data| && left != [] && |left| + n >= size ==> r == Failure)
      ensures FirstNewline(data) == |data| ==>
        && EndsText(LastRefill(left, data, true, old(end), size, old(CellAt(|data|))), r)
        && (r.Line? ==> start == end)
    {
      hide FirstNewline, Returned, EndsText;
      assert buffer[0..size - availOut] == data;
      var next := Find(0, size - availOut);
      if next != size - availOut {
        r := TakeAcross(left, data, next);
      } else {
        r := EndInFirstHalf(left, data);
      }
    }

    /** A complete line is in the buffer. */
    ghost predicate InBuffer()
      reads this, buffer
      requires start <= end <= buffer.Length
    {
      FirstNewline(buffer[start..end]) < end - start
    }

    /** The next refill completes the line, and it is short enough to be put together if its parts are apart. */
    ghost predicate InRefill()
      reads this
    {
      && open && refills != [] && refills[0].Chunk?
      && var n := FirstNewline(refills[0].data);
         n < |refills[0].data| && (swapped && start < end ==> end - start + n < size)
    }

    /** The next refill completes the line, but its parts are apart and too long together. */
    ghost predicate TooLong()
      reads this
    {
      && open && refills != [] && refills[0].Chunk?
      && var n := FirstNewline(refills[0].data);
         n < |refills[0].data| && swapped && start < end && end - start + n >= size
    }

    /** The next refill does not complete the line. */
    ghost predicate NoLineEnd()
      reads this
    {
      open && refills != [] && refills[0].Chunk? && FirstNewline(refills[0].data) == |refills[0].data|
    }

    ghost function AtRefill(): LastRefill
      reads this, buffer
      requires Valid() && NoLineEnd()
    {
      LastRefill(buffer[start..end], refills[0].data, swapped, end, size, CellAt(|refills[0].data|))
    }

    /** A refill leaves alone what was not read yet, and the other half. */
    method Refill() returns (read: Refilled, ghost data: seq<char>)
      requires Valid() && open
      modifies this, buffer
      ensures start == old(start) && end == old(end)
      ensures old(refills) == [] ==> read == EndOfStream && !open
      ensures old(refills) != [] && old(refills)[0].Broken? ==> read == Error
      ensures old(refills) != [] && old(refills)[0].Chunk? ==>
        && read == Filled && data == old(refills)[0].data && refills == old(refills)[1..] && open
        && Sized() && |data| <= size && availOut == size - |data| && swapped == !old(swapped)
        && buffer[start..end] == old(buffer[start..end]) && CellAt(|data|) == old(CellAt(|data|))
        && (if swapped then buffer[size..size + |data|] else buffer[..|data|]) == data
        && (swapped ==> forall i :: 0 <= i < size ==> buffer[i] == old(buffer[i]))
    {
      data := if refills != [] && refills[0].Chunk? then refills[0].data else [];
      ghost var left, cell := buffer[start..end], CellAt(|data|);
      read := ReadInput();
      assert !swapped ==> buffer[..|data|] == buffer[0..|data|];
      assert read == Filled ==> CellAt(|data|) == cell;
      assert read == Filled ==> forall i :: 0 <= i < |left| ==> buffer[start + i] == left[i];
    }

    /** The refill ends the line that was started, if its parts are not too long together. */
    ghost predicate Ends(left: seq<char>, data: seq<char>, second: bool) {
      FirstNewline(data) < |data| && (second && left != [] ==> |left| + FirstNewline(data) < size)
    }

    /** The part of zread_line behind a refill, which did not touch the unread text `left`. */
    method AfterRefill(ghost left: seq<char>, ghost data: seq<char>) returns (r: Result)
      requires Sized() && start <= end && FirstNewline(left) == |left|
      requires if swapped then end <= size else size <= start && end <= 2 * size
      requires left == buffer[start..end] && |data| <= size && availOut == size - |data|
      requires (if swapped then buffer[size..size + |data|] else buffer[..|data|]) == data
      modifies `start, `end, buffer
      ensures Ends(left, data, !swapped) ==>
        && Valid() && Returned(r, left + data[..FirstNewline(data)])
        && buffer[start..end] == data[FirstNewline(data) + 1..]
      ensures FirstNewline(data) < |data| && !Ends(left, data, !swapped) ==> r == Failure
      ensures FirstNewline(data) == |data| ==>
        EndsText(LastRefill(left, data, !swapped, old(end), size, old(CellAt(|data|))), r) && (r.Line? ==> start == end)
      ensures Ends(left, data, !swapped) && swapped ==>
        forall i :: 0 <= i < size - |left| ==> buffer[i] == old(buffer[i])
    {
      hide FirstNewline, Returned, EndsText, CellAt, Sized;
      if swapped {
        r := FromSecondHalf(left, data);
      } else {
        r := FromFirstHalf(left, data);
      }
    }

    /** The part of zread_line that needs a refill. */
    method ReadOn() returns (r: Result)
      requires Valid() && open && !InBuffer()
      modifies this, buffer
      ensures old(refills) == [] ==> r == EndOfFile && !open
      ensures old(refills) != [] && old(refills)[0].Broken? ==> r == Failure
      ensures old(TooLong()) ==> r == Failure
      ensures old(InRefill()) ==>
        && Valid() && open && refills == old(refills)[1..]
        && var line := old(buffer[start..end]) + old(refills)[0].data[..FirstNewline(old(refills)[0].data)];
           Returned(r, line) && Delivers(old(Unread()), line, Unread())
      ensures old(NoLineEnd()) ==>
        EndsText(old(AtRefill()), r) && refills == old(refills)[1..] && (r.Line? ==> start == end)
      ensures old(InRefill()) ==>
        var data := old(refills)[0].data;
        buffer[start..end] == data[FirstNewline(data) + 1..] && swapped == !old(swapped)
      ensures old(InRefill()) && !old(swapped) ==>
        forall i :: 0 <= i < size - (old(end) - old(start)) ==> buffer[i] == old(buffer[i])
    {
      hide FirstNewline, Returned, Flatten, EndsText, CellAt, Delivers;
      ghost var left := buffer[start..end];
      if refills != [] && refills[0].Chunk? {
        FlattenFirst(refills);
        Completing(left, refills[0].data, Flatten(refills[1..]));
      }
      var read, data := Refill();
      if read == EndOfStream {
        return EndOfFile;
      }
      if read == Error {
        return Failure;
      }
      hide Sized;
      r := AfterRefill(left, data);
    }

    /** When every refill but an empty last one ends a line, the next line can be read unless nothing is left. */
    lemma NextIsReadable()
      requires Valid() && open && RefillsEndLines(refills) && ShortLines(Unread(), size)
      ensures || InBuffer() || InRefill()
              || (Unread() == buffer[start..end] == [] && (refills == [] || (NoLineEnd() && refills[0].data == [])))
    {
      var left := buffer[start..end];
      if refills == [] || refills[0].data == [] {
        NothingComes(refills);
        assert left + [] == left;
      } else {
        FirstNewlineAppends(left, Flatten(refills));
        FirstNewlineAppends(refills[0].data, Flatten(refills[1..]));
      }
    }

    lemma ReadableIsText()
      requires Valid()
      ensures InBuffer() || InRefill() ==> Unread() != []
    {
    }

    /**
      zread_line.  A line that ends in the buffer or in the next refill is returned, terminated, and removed
      from the unread text; if it is too long to be joined across the two ends of the buffer, the call fails.
    */
    method ReadLine() returns (r: Result)
      requires Valid()
      modifies this, buffer
      ensures old(InBuffer()) || old(InRefill()) ==>
        && Valid() && open == old(open)
        && refills == (if old(InBuffer()) then old(refills) else old(refills)[1..])
        && var u := old(Unread());
           Returned(r, u[..FirstNewline(u)]) && Delivers(u, u[..FirstNewline(u)], Unread())
      ensures !old(InBuffer()) && !old(open) ==> r == NoInput
      ensures !old(InBuffer()) && old(open) && old(refills) == [] ==> r == EndOfFile && !open
      ensures !old(InBuffer()) && old(open) && old(refills) != [] && old(refills)[0].Broken? ==> r == Failure
      ensures !old(InBuffer()) && old(TooLong()) ==> r == Failure
      ensures !old(InBuffer()) && old(NoLineEnd()) ==>
        EndsText(old(AtRefill()), r) && refills == old(refills)[1..] && (r.Line? ==> start == end)
      ensures old(InBuffer()) ==>
        var next := old(start) + FirstNewline(old(buffer[start..end]));
        && start == next + 1 && end == old(end) && swapped == old(swapped)
        && forall i :: 0 <= i < buffer.Length && i != next ==> buffer[i] == old(buffer[i])
      ensures !old(InBuffer()) && old(InRefill()) ==>
        var data := old(refills)[0].data;
        buffer[start..end] == data[FirstNewline(data) + 1..] && swapped == !old(swapped)
      ensures !old(InBuffer()) && old(InRefill()) && !old(swapped) ==>
        forall i :: 0 <= i < size - (old(end) - old(start)) ==> buffer[i] == old(buffer[i])
    {
      hide FirstNewline, Flatten, Returned, EndsText;
      ghost var left, rest := buffer[start..end], if open then Flatten(refills) else [];
      r := NoInput;
      if start < end {
        var next := Find(start, end);
        if next != end {
          r := Terminate(start, end, next);
          DeliversMore(left, rest, left[..FirstNewline(left)], buffer[start..end]);
          return;
        }
      }
      if open {
        r := ReadOn();
      }
    }
  }

  // ---------- reading a whole text ----------

  function SplitLines(s: seq<char>): seq<seq<char>> {
    var n := FirstNewline(s);
    if n == |s| then (if s == [] then [] else [s]) else [s[..n]] + SplitLines(s[n + 1..])
  }

  /** Lines, each followed by a newline. */
  function Joined(lines: seq<seq<char>>): seq<char> {
    if lines == [] then [] else lines[0] + "\n" + Joined(lines[1..])
  }

  /** The text with a newline at its end. */
  function Ended(s: seq<char>): seq<char> { if s == [] || s[|s| - 1] == '\n' then s else s + "\n" }

  lemma JoinedCons(line: seq<char>, lines: seq<seq<char>>)
    ensures Joined([line] + lines) == line + "\n" + Joined(lines)
  {
    assert ([line] + lines)[1..] == lines;
  }

  lemma EndedCons(s: seq<char>, n: nat)
    requires n < |s| && s[n] == '\n'
    ensures Ended(s) == s[..n] + "\n" + Ended(s[n + 1..])
  {
    assert s == s[..n] + "\n" + s[n + 1..];
  }

  /** Joining the lines of a text gives it back. */
  lemma {:induction false} LinesMakeUp(s: seq<char>)
    ensures Joined(SplitLines(s)) == Ended(s)
  {
    var n := FirstNewline(s);
    hide FirstNewline, Joined, Ended;
    if n < |s| {
      LinesMakeUp(s[n + 1..]);
      JoinedCons(s[..n], SplitLines(s[n + 1..]));
      EndedCons(s, n);
    } else {
      JoinsLast(s);
    }
  }

  lemma JoinsLast(s: seq<char>)
    requires FirstNewline(s) == |s|
    ensures Joined(if s == [] then [] else [s]) == Ended(s)
  {
    if s != [] {
      assert Joined([s]) == s + "\n" + Joined([]);
    }
  }

  lemma {:induction false} LinesHoldNoNewline(s: seq<char>, i: nat)
    requires i < |SplitLines(s)|
    ensures '\n' !in SplitLines(s)[i]
  {
    var n := FirstNewline(s);
    if n < |s| && i > 0 {
      LinesHoldNoNewline(s[n + 1..], i - 1);
    }
  }

  /** Every refill brings the end of a line, except that the last one may be empty. */
  ghost predicate RefillsEndLines(refills: seq<Refill>) {
    forall i :: 0 <= i < |refills| ==>
      && refills[i].Chunk?
      && (FirstNewline(refills[i].data) < |refills[i].data| || (i == |refills| - 1 && refills[i].data == []))
  }

  lemma NothingComes(refills: seq<Refill>)
    requires RefillsEndLines(refills) && (refills == [] || refills[0].data == [])
    ensures Flatten(refills) == []
  {
    if refills != [] {
      assert |refills| == 1 && refills[1..] == [];
    }
  }

  /** Every line is complete and shorter than a half of the buffer. */
  ghost predicate ShortLines(s: seq<char>, size: nat)
    decreases |s|
  {
    s != [] ==> FirstNewline(s) < |s| && FirstNewline(s) < size && ShortLines(s[FirstNewline(s) + 1..], size)
  }

  lemma DeliveredLine(u: seq<char>, line: seq<char>, rest: seq<char>, size: nat)
    requires Delivers(u, line, rest) && ShortLines(u, size)
    ensures SplitLines(u) == [line] + SplitLines(rest) && ShortLines(rest, size) && |rest| < |u|
  {
  }

  lemma LineTaken(lines: seq<seq<char>>, u: seq<char>, line: seq<char>, rest: seq<char>, size: nat)
    requires Delivers(u, line, rest) && ShortLines(u, size)
    ensures lines + [line] + SplitLines(rest) == lines + SplitLines(u)
    ensures ShortLines(rest, size) && |rest| < |u|
  {
    DeliveredLine(u, line, rest, size);
  }

  /** One call on a text that is in order. */
  method NextLine(reader: Reader) returns (more: bool, line: seq<char>)
    requires reader.Valid() && reader.open && RefillsEndLines(reader.refills)
    requires ShortLines(reader.Unread(), reader.size)
    modifies reader, reader.buffer
    ensures more <==> old(reader.Unread()) != []
    ensures more ==> reader.Valid() && reader.open && RefillsEndLines(reader.refills)
                     && Delivers(old(reader.Unread()), line, reader.Unread())
  {
    hide FirstNewline, Flatten, ShortLines;
    reader.NextIsReadable();
    reader.ReadableIsText();
    hide Reader.Unread, Reader.InBuffer, Reader.InRefill;
    var r := reader.ReadLine();
    more, line := r.Line?, [];
    if more {
      line := reader.buffer[r.at..r.at + r.len];
    }
  }

  /** Reading until the end of the file gives exactly the lines of the text. */
  method ReadAll(reader: Reader) returns (lines: seq<seq<char>>)
    requires reader.Valid() && reader.open && RefillsEndLines(reader.refills)
    requires ShortLines(reader.Unread(), reader.size)
    modifies reader, reader.buffer
    ensures lines == SplitLines(old(reader.Unread()))
  {
    assert SplitLines([]) == [];
    hide *;
    lines := [];
    ghost var unread := reader.Unread();
    var more, line := NextLine(reader);
    while more
      invariant more <==> unread != []
      invariant more ==> reader.Valid() && reader.open && RefillsEndLines(reader.refills)
                         && Delivers(unread, line, reader.Unread())
      invariant ShortLines(unread, reader.size)
      invariant lines + SplitLines(unread) == SplitLines(old(reader.Unread()))
      decreases |unread|
    {
      LineTaken(lines, unread, line, reader.Unread(), reader.size);
      lines := lines + [line];
      unread := reader.Unread();
      more, line := NextLine(reader);
    }
  }

  // ---------- refills without a newline ----------

  /** What is left of u when its first line was taken, which the end of u ends if there is no newline. */
  ghost predicate TakesLine(u: seq<char>, text: seq<char>, rest: seq<char>) {
    if FirstNewline(u) < |u| then Delivers(u, text, rest) else text == u && rest == []
  }

  /** A refill without newline ends the text for zread_line.  That is a line of the text exactly if nothing follows. */
  lemma CutIsLine(left: seq<char>, data: seq<char>, more: seq<char>)
    requires FirstNewline(left) == |left| && FirstNewline(data) == |data|
    ensures TakesLine(left + (data + more), left + data, more) <==> more == []
    ensures FirstNewline(left + (data + more)) == |left + data| <==> more == [] || more[0] == NEWLINE
  {
    FirstNewlineAppends(left, data + more);
    FirstNewlineAppends(data, more);
    var u := left + (data + more);
    assert more == [] ==> u == left + data;
    assert FirstNewline(u) < |u| ==> |u[FirstNewline(u) + 1..]| < |more|;
  }

  /** The text that a call returns is followed by what the reader still holds. */
  ghost predicate Leaves(reader: Reader, r: Result, text: seq<char>, rest: seq<char>)
    reads reader, reader.buffer
  {
    && r.Line? && r.at + |text| <= reader.buffer.Length && reader.buffer[r.at..r.at + |text|] == text
    && var held := if reader.start < reader.end <= reader.buffer.Length then reader.buffer[reader.start..reader.end]
                   else [];
       rest == held + Flatten(reader.refills)
  }

  /** On any text, a line that ends in the buffer or in the next refill is returned and the rest is left. */
  method TakeLine(reader: Reader) returns (r: Result, ghost text: seq<char>, ghost rest: seq<char>)
    requires reader.Valid() && reader.open && (reader.InBuffer() || reader.InRefill())
    modifies reader, reader.buffer
    ensures Leaves(reader, r, text, rest) && TakesLine(old(reader.Unread()), text, rest)
  {
    hide FirstNewline, Flatten;
    ghost var u := reader.Unread();
    r := reader.ReadLine();
    text, rest := u[..FirstNewline(u)], reader.Unread();
  }

  /**
    When the next refill ends no line, what is returned and what is left are the next line of the text and the rest
    exactly if nothing follows that refill.
  */
  method TakeCut(reader: Reader) returns (r: Result, ghost text: seq<char>, ghost rest: seq<char>)
    requires reader.Valid() && reader.open && !reader.InBuffer() && reader.NoLineEnd()
    modifies reader, reader.buffer
    ensures rest == Flatten(old(reader.refills)[1..])
    ensures r.Line? ==>
      Leaves(reader, r, text, rest) && (TakesLine(old(reader.Unread()), text, rest) <==> rest == [])
  {
    hide FirstNewline, Flatten, TakesLine;
    ghost var left, data := reader.buffer[reader.start..reader.end], reader.refills[0].data;
    rest := Flatten(reader.refills[1..]);
    FlattenFirst(reader.refills);
    CutIsLine(left, data, rest);
    text := left + data;
    hide Reader.Unread;
    r := reader.ReadLine();
    assert [] + rest == rest;
  }

  /** So a text can be cut before its end: of the line "ab" only "a" is returned when a refill ends there. */
  method CutText() returns (text: seq<char>, ghost unread: seq<char>, ghost rest: seq<char>)
    ensures unread == "ab\n" && text == "a" && rest == "b\n"
  {
    hide Delivers, Reader.Returned;
    var reader := new Reader(2, [], [Chunk("a"), Chunk("b\n")]);
    assert reader.buffer[0..0] == [] && [] + "a" == "a" && [] + "ab\n" == "ab\n";
    FlattenTwo("a", "b\n");
    assert "a" + "b\n" == "ab\n";
    hide Flatten;
    unread := reader.Unread();
    NoNewline([]);
    NoNewline("a");
    hide Reader.Unread;
    var r := reader.ReadLine();
    text := reader.buffer[r.at..r.at + 1];
    rest := Flatten(reader.refills);
  }

  lemma FlattenTwo(a: seq<char>, b: seq<char>)
    ensures Flatten([Chunk(a), Chunk(b)]) == a + b && Flatten([Chunk(b)]) == b
  {
    FlattenFirst([Chunk(a), Chunk(b)]);
    assert [Chunk(a), Chunk(b)][1..] == [Chunk(b)];
    assert b + [] == b;
  }

  // ---------- texts without a last newline ----------

  /** The text "abc" comes with the length 5 when its start "ab" was not at the end of the first half. */
  method MovedTextIsTooLong() returns (text: seq<char>, len: int)
    ensures text == "abc" && len == 5
  {
    var reader := new Reader(4, "ab", [Chunk("c")]);
    assert reader.buffer[0..2] == "ab";
    NoNewline("ab");
    NoNewline("c");
    var r := reader.ReadLine();
    assert "ab" + "c" == "abc";
    text := reader.buffer[r.at..r.at + 3];
    len := r.len;
  }

  /** A reader of two lines and a rest, after the first line: its first half still holds it. */
  method ReadFirst() returns (reader: Reader)
    ensures fresh(reader) && fresh(reader.buffer) && reader.Valid() && reader.open && reader.size == 4
    ensures !reader.swapped && reader.start == reader.end == 3 && reader.buffer[1] == 'b'
    ensures reader.refills == [Chunk("x\n"), Chunk("c")]
  {
    hide Flatten, Delivers, Reader.EndsText, Reader.Returned, Reader.Unread;
    reader := new Reader(4, "ab\n", [Chunk("x\n"), Chunk("c")]);
    assert reader.buffer[0..3] == "ab\n" && reader.buffer[1] == 'b';
    FirstNewlineIs("ab\n", 2);
    hide FirstNewline;
    var r := reader.ReadLine();
  }

  method ReadSecond() returns (reader: Reader)
    ensures fresh(reader) && fresh(reader.buffer) && reader.Valid() && reader.open && reader.size == 4
    ensures reader.swapped && reader.start == reader.end && reader.buffer[1] == 'b' && reader.refills == [Chunk("c")]
  {
    hide Flatten, Delivers, Reader.EndsText, Reader.Returned, Reader.Unread;
    reader := ReadFirst();
    FirstNewlineIs("x\n", 1);
    NoNewline([]);
    hide FirstNewline;
    assert reader.buffer[3..3] == [];
    var r := reader.ReadLine();
    assert |reader.buffer[reader.start..reader.end]| == 0;
  }

  /** The text "c" is followed by a character of an earlier line when it was all in a refill of the first half. */
  method RefilledTextIsNotTerminated() returns (text: seq<char>, len: int, behind: char)
    ensures text == "c" && len == 1 && behind == 'b'
  {
    hide Flatten, Delivers, Reader.Returned, Reader.Unread;
    var reader := ReadSecond();
    NoNewline([]);
    NoNewline("c");
    hide FirstNewline;
    assert reader.buffer[reader.start..reader.end] == [] && [] + "c" == "c";
    var r := reader.ReadLine();
    text := reader.buffer[r.at..r.at + 1];
    len := r.len;
    behind := reader.buffer[r.at + 1];
  }
}
