/**
 * A render box: one cell of the heatmap grid, labelled with a date string
 * and possibly holding the entry of that date.
 */
module Boxes {
  import opened Common
  import opened Calendar
  import opened DateUtil
  import opened Entries

  datatype Box = Box(date: string, entry: Option<RawEntry>)

  /** BoxImpl.fromDate: an empty box labelled with the date string of an instant. */
  function FromDate(t: int): (b: Box)
    ensures b.entry.None?
  {
    Box(DateString(t), None)
  }

  /** The text of a box built from an instant with a four-digit year parses back to midnight of its day. */
  lemma FromDateParses(t: int)
    requires 1000 <= Year(t) <= 9999
    ensures ParseDate(FromDate(t).date) == Some(TimeFloorDate(t))
  {
    ParseDateString(t);
  }

  /** Two instants give boxes with the same text exactly when they fall on the same day. */
  lemma FromDateSameDay(t1: int, t2: int)
    ensures FromDate(t1).date == FromDate(t2).date <==> Day(t1) == Day(t2)
  {
    DateStringSameDay(t1, t2);
  }

  /** BoxImpl.fromEntry: a box labelled with the entry's own date string, holding the entry. */
  function FromEntry(e: RawEntry): (b: Box)
    ensures b.entry == Some(e) && b.date == e.date
  {
    Box(e.date, Some(e))
  }

  /** The backgroundColor getter: always empty, so no inline style is rendered. */
  function BackgroundColor(b: Box): (r: string)
    ensures |r| == 0
  {
    ""
  }

  /** The content getter: the entry's content when the box holds an entry, else empty text. */
  function Content(b: Box): (r: Option<string>)
    ensures b.entry.None? ==> r == Some("")
    ensures b.entry.Some? ==> r == b.entry.value.content
  {
    if b.entry.Some? then b.entry.value.content else Some("")
  }

  /** A box built from an entry shows that entry's content; a box built from a date shows nothing. */
  lemma ContentOfBoxes(e: RawEntry, t: int)
    ensures Content(FromEntry(e)) == e.content
    ensures Content(FromDate(t)) == Some("")
  {
  }

  /**
   * The empty boxes of the n consecutive days from day `first`, each labelled
   * by `text`; the layouts label days with DayString, so these are the boxes
   * fromDate builds for those days.
   */
  function DayBoxes(first: int, n: nat, text: int -> string): (r: seq<Box>)
    ensures |r| == n
  {
    if n == 0 then [] else DayBoxes(first, n - 1, text) + [Box(text(first + n - 1), None)]
  }

  /** The box at position i is the empty box labelled with day first + i. */
  lemma {:induction false} DayBoxesAt(first: int, n: nat, text: int -> string, i: int)
    requires 0 <= i < n
    ensures DayBoxes(first, n, text)[i] == Box(text(first + i), None)
  {
    if i < n - 1 {
      DayBoxesAt(first, n - 1, text, i);
    }
  }

  /** A run of boxes from day first to day last begins with first's box and ends with last's. */
  lemma DayBoxesEnds(first: int, last: int, text: int -> string)
    requires first <= last
    ensures var r := DayBoxes(first, last - first + 1, text);
      r[0] == Box(text(first), None) && r[|r| - 1] == Box(text(last), None)
  {
    var n := last - first + 1;
    DayBoxesAt(first, n, text, 0);
    assert first + n - 1 == last;
  }

  /** Every box of a run is labelled with its own day. */
  lemma DayBoxesLabels(first: int, n: nat, text: int -> string)
    ensures forall i | 0 <= i < n :: DayBoxes(first, n, text)[i] == Box(text(first + i), None)
  {
    forall i | 0 <= i < n
      ensures DayBoxes(first, n, text)[i] == Box(text(first + i), None)
    {
      DayBoxesAt(first, n, text, i);
    }
  }

  /** One more day appends the box of that day, day z = first + n. */
  lemma DayBoxesSnoc(first: int, n: nat, z: int, text: int -> string)
    requires z == first + n
    ensures DayBoxes(first, n + 1, text) == DayBoxes(first, n, text) + [Box(text(z), None)]
  {
  }

  /** A run of n1 + n2 days is the run of the first n1 days followed by the run of the next n2. */
  lemma {:induction false} DayBoxesAppend(first: int, n1: nat, n2: nat, text: int -> string)
    ensures DayBoxes(first, n1, text) + DayBoxes(first + n1, n2, text) == DayBoxes(first, n1 + n2, text)
  {
    if n2 > 0 {
      DayBoxesAppend(first, n1, n2 - 1, text);
      DayBoxesSnoc(first + n1, n2 - 1, first + n1 + n2 - 1, text);
      DayBoxesSnoc(first, n1 + n2 - 1, first + n1 + n2 - 1, text);
    }
  }

  /** The n days from s, then m days from f = s + n, are the c = n + m days from s. */
  lemma DayBoxesJoin(s: int, n: nat, f: int, m: nat, c: nat, text: int -> string)
    requires f == s + n && c == n + m
    ensures DayBoxes(s, n, text) + DayBoxes(f, m, text) == DayBoxes(s, c, text)
  {
    DayBoxesAppend(s, n, m, text);
  }

  /**
   * When t falls on day z = first + n, the next day of the run, one more day
   * appends the box fromDate builds for t.
   */
  lemma DayBoxesNext(first: int, n: nat, z: int, t: int)
    requires z == first + n && Day(t) == z
    ensures DayBoxes(first, n + 1, DayString) == DayBoxes(first, n, DayString) + [FromDate(t)]
  {
    DayBoxesSnoc(first, n, z, DayString);
    assert FromDate(t) == Box(DayString(z), None);
  }

  /**
   * boxes.push(BoxImpl.fromDate(t)) on the boxes of the n days from `first`,
   * when t falls on the next day: the result is the boxes of n + 1 days.
   */
  method PushDate(boxes: seq<Box>, t: int, ghost first: int, ghost n: nat) returns (r: seq<Box>)
    requires boxes == DayBoxes(first, n, DayString) && Day(t) == first + n
    ensures r == DayBoxes(first, n + 1, DayString)
  {
    DayBoxesNext(first, n, Day(t), t);
    r := boxes + [FromDate(t)];
  }

  /** Under a text that tells days apart, no two boxes of a run share a date. */
  lemma DayBoxesDistinct(first: int, n: nat, text: int -> string)
    requires forall a, b | text(a) == text(b) :: a == b
    ensures forall i, j | 0 <= i < j < n :: DayBoxes(first, n, text)[i].date != DayBoxes(first, n, text)[j].date
  {
    DayBoxesLabels(first, n, text);
  }

  /** Date labels tell days apart. */
  lemma DayStringsDistinct()
    ensures forall a, b | DayString(a) == DayString(b) :: a == b
  {
    forall a, b | DayString(a) == DayString(b)
      ensures a == b
    {
      DayStringInjective(a, b);
    }
  }
}
