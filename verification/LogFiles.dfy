/** The files of the log: one a day and per `splitLines` lines, opened for append. */
module LogFiles {

  /** A calendar day; the log compares only its day of the month. */
  datatype Date = Date(day: int, mday: int)

  /** The file of a day: its number is the suffix, zero for none. */
  datatype File = File(day: int, number: nat)

  datatype Files = Files(
    today: int,              // m_today, a day of the month
    count: nat,              // m_count
    file: File,              // behind m_fp
    lines: map<File, nat>    // how many lines each file has
  )

  /** A log opened on day `d` over the files that are there. */
  function Opened(d: Date, lines: map<File, nat>): Files { Files(d.mday, 0, File(d.day, 0), lines) }

  function Lines(lines: map<File, nat>, f: File): nat { if f in lines then lines[f] else 0 }

  function LinesIn(s: Files, f: File): nat { Lines(s.lines, f) }

  /** A call of write_log counts its line and opens the file that is due. */
  function Reopen(s: Files, split: nat, now: Date): Files
    requires split > 0
  {
    var n := s.count + 1;
    if s.today != now.mday then s.(today := now.mday, count := 0, file := File(now.day, 0))
    else if n % split == 0 then s.(count := n, file := File(now.day, n / split))
    else s.(count := n)
  }

  /** fputs to the open file. */
  function AddLine(s: Files): Files
  {
    s.(lines := s.lines[s.file := LinesIn(s, s.file) + 1])
  }

  function WriteLine(s: Files, split: nat, now: Date): Files
    requires split > 0
  {
    AddLine(Reopen(s, split, now))
  }

  function WriteAll(s: Files, split: nat, ds: seq<Date>): Files
    requires split > 0
    decreases |ds|
  {
    if |ds| == 0 then s else WriteAll(WriteLine(s, split, ds[0]), split, ds[1..])
  }

  // ---- which file is open --------------------------------------------------------------

  /** The open file is the one numbered count / split of the day `d`. */
  predicate Current(s: Files, split: nat, d: Date)
    requires split > 0
  {
    s.today == d.mday && s.file == File(d.day, s.count / split)
  }

  lemma CountOn(n: nat, split: nat)
    requires split > 0
    ensures if (n + 1) % split == 0 then n % split == split - 1
            else (n + 1) / split == n / split && (n + 1) % split == n % split + 1
  {
    var q, r := n / split, n % split;
    assert n == q * split + r;
    if r == split - 1 {
      assert n + 1 == (q + 1) * split;
      Quotient(q + 1, 0, split);
    } else {
      assert n + 1 == q * split + (r + 1);
      Quotient(q, r + 1, split);
    }
  }

  lemma {:induction false} Quotient(q: nat, r: nat, split: nat)
    requires r < split
    ensures (q * split + r) / split == q && (q * split + r) % split == r
  {
    var n := q * split + r;
    var d := n / split - q;
    assert n == (n / split) * split + n % split;
    assert d * split == r - n % split;
    assert d == 0;
  }

  /** A write leaves the file of its own day open if and only if the day is the last
      write's, or another day of the month, or the count opens a new file anyway. */
  lemma CurrentAfterWrite(s: Files, split: nat, last: Date, now: Date)
    requires split > 0 && Current(s, split, last)
    ensures Current(WriteLine(s, split, now), split, now)
            <==> now.day == last.day || now.mday != last.mday || (s.count + 1) % split == 0
  {
    CountOn(s.count, split);
    Quotient(0, 0, split);
  }

  /** Days do not go back, and no write comes a whole month or more after the last one
      on the same day of a month. */
  predicate Calendar(last: Date, ds: seq<Date>)
    decreases |ds|
  {
    |ds| == 0 || (Follows(last, ds[0]) && Calendar(ds[0], ds[1..]))
  }

  predicate Follows(last: Date, now: Date)
  {
    last.day <= now.day && (now.day == last.day <==> now.mday == last.mday)
  }

  // ---- how long the files get ------------------------------------------------------------

  predicate WithinLimit(s: Files, split: nat)
  {
    forall f | f in s.lines :: s.lines[f] <= split
  }

  predicate After(f: File, g: File)
  {
    f.day < g.day || (f.day == g.day && f.number < g.number)
  }

  /** No file is too long, the open one has no more lines than were counted since it was
      due, and one, and the files still to come are empty. */
  predicate WithinBounds(s: Files, split: nat)
    requires split > 0
  {
    && WithinLimit(s, split)
    && LinesIn(s, s.file) <= s.count % split + 1
    && (forall f | f in s.lines && After(s.file, f) :: s.lines[f] == 0)
  }

  lemma WriteKeepsBounds(s: Files, split: nat, last: Date, now: Date)
    requires split > 0 && Current(s, split, last) && WithinBounds(s, split) && Follows(last, now)
    ensures WithinBounds(WriteLine(s, split, now), split)
  {
    CountOn(s.count, split);
    Quotient(0, 0, split);
    if (s.count + 1) % split == 0 { NextFile(s.count, split); }
  }

  lemma NextFile(n: nat, split: nat)
    requires split > 0 && (n + 1) % split == 0
    ensures (n + 1) / split == n / split + 1
  {
    CountOn(n, split);
    var q := n / split;
    assert n == q * split + (split - 1);
    assert n + 1 == (q + 1) * split;
    Quotient(q + 1, 0, split);
  }

  /** Over any run of writes on such days the open file is the day's one numbered by the
      count; and bounds that hold at the start are kept. */
  lemma {:induction false} RotationIsRight(s: Files, split: nat, last: Date, ds: seq<Date>)
    requires split > 0 && Current(s, split, last) && Calendar(last, ds)
    ensures var r := WriteAll(s, split, ds);
            && Current(r, split, if |ds| == 0 then last else ds[|ds| - 1])
            && (WithinBounds(s, split) ==> WithinBounds(r, split))
    decreases |ds|
  {
    hide WithinBounds;
    if |ds| > 0 {
      CurrentAfterWrite(s, split, last, ds[0]);
      if WithinBounds(s, split) { WriteKeepsBounds(s, split, last, ds[0]); }
      RotationIsRight(WriteLine(s, split, ds[0]), split, ds[0], ds[1..]);
    }
  }

  // ---- and when they get too long -------------------------------------------------------

  /** An open file with a line too many is full before its successor is due. */
  lemma {:induction false} OpenOverfills(s: Files, split: nat, last: Date) returns (ds: seq<Date>)
    requires split > 0 && Current(s, split, last) && LinesIn(s, s.file) > s.count % split + 1
    ensures Calendar(last, ds) && !WithinLimit(WriteAll(s, split, ds), split)
    decreases split - s.count % split
  {
    if s.count % split == split - 1 {
      ds := [];
    } else {
      CountOn(s.count, split);
      ds := OpenOverfills(WriteLine(s, split, last), split, last);
      ds := Prepend(s, split, last, last, ds);
    }
  }

  lemma Prepend(s: Files, split: nat, last: Date, now: Date, rest: seq<Date>) returns (ds: seq<Date>)
    requires split > 0 && Follows(last, now) && Calendar(now, rest)
    ensures Calendar(last, ds) && WriteAll(s, split, ds) == WriteAll(WriteLine(s, split, now), split, rest)
  {
    ds := [now] + rest;
    assert ds[1..] == rest;
  }

  /** A file of the day that is still to come and has a line already. */
  lemma {:induction false} NumberedOverfills(s: Files, split: nat, last: Date, f: File) returns (ds: seq<Date>)
    requires split > 0 && Current(s, split, last) && f.day == last.day && f.number > s.count / split && LinesIn(s, f) > 0
    ensures Calendar(last, ds) && !WithinLimit(WriteAll(s, split, ds), split)
    decreases f.number * split - s.count
  {
    var t := WriteLine(s, split, last);
    CurrentAfterWrite(s, split, last, last);
    CountOn(s.count, split);
    Ahead(s.count, split, f.number);
    if t.count / split == f.number {
      assert (s.count + 1) % split == 0;
      ds := OpenOverfills(t, split, last);
    } else {
      if (s.count + 1) % split == 0 { NextFile(s.count, split); }
      ds := NumberedOverfills(t, split, last, f);
    }
    ds := Prepend(s, split, last, last, ds);
  }

  lemma Ahead(n: nat, split: nat, k: nat)
    requires split > 0 && n / split < k
    ensures n < k * split
  {
    assert n == n / split * split + n % split;
    assert (n / split + 1) * split <= k * split;
  }

  /** A file of a later day that has a line already. */
  lemma LaterOverfills(s: Files, split: nat, last: Date, f: File) returns (ds: seq<Date>)
    requires split > 0 && Current(s, split, last) && f.day > last.day && LinesIn(s, f) > 0
    ensures Calendar(last, ds) && !WithinLimit(WriteAll(s, split, ds), split)
  {
    var now := Date(f.day, last.mday + 1);
    var t := WriteLine(s, split, now);
    CurrentAfterWrite(s, split, last, now);
    Quotient(0, 0, split);
    if f.number == 0 {
      ds := OpenOverfills(t, split, now);
    } else {
      ds := NumberedOverfills(t, split, now, f);
    }
    ds := Prepend(s, split, last, now, ds);
  }

  /** The limit theorem: from a state of the log every run of writes keeps all files
      within the limit if and only if the state is within bounds. */
  lemma LimitIff(s: Files, split: nat, last: Date)
    requires split > 0 && Current(s, split, last)
    ensures (forall ds | Calendar(last, ds) :: WithinLimit(WriteAll(s, split, ds), split)) <==> WithinBounds(s, split)
  {
    if WithinBounds(s, split) {
      forall ds | Calendar(last, ds) ensures WithinLimit(WriteAll(s, split, ds), split) {
        RotationIsRight(s, split, last, ds);
      }
    } else {
      var ds := Overfills(s, split, last);
    }
  }

  lemma Overfills(s: Files, split: nat, last: Date) returns (ds: seq<Date>)
    requires split > 0 && Current(s, split, last) && !WithinBounds(s, split)
    ensures Calendar(last, ds) && !WithinLimit(WriteAll(s, split, ds), split)
  {
    if !WithinLimit(s, split) {
      ds := [];
    } else if LinesIn(s, s.file) > s.count % split + 1 {
      ds := OpenOverfills(s, split, last);
    } else {
      var f :| f in s.lines && After(s.file, f) && s.lines[f] > 0;
      if f.day > last.day {
        ds := LaterOverfills(s, split, last, f);
      } else {
        ds := NumberedOverfills(s, split, last, f);
      }
    }
  }

  // ---- opening the log again ----------------------------------------------------------------

  /** What the files may hold when the log is opened on day `d`. */
  predicate Room(lines: map<File, nat>, d: Date, split: nat)
  {
    && (forall f | f in lines :: lines[f] <= split)
    && Lines(lines, File(d.day, 0)) <= 1
    && (forall f | f in lines && f.day == d.day && f.number > 0 :: lines[f] == 0)
    && (forall f | f in lines && f.day > d.day :: lines[f] == 0)
  }

  /** All runs of a log opened on day `d` keep its files within the limit if and only if
      the day's first file has at most one line and those after it have none. */
  lemma OpenedIff(lines: map<File, nat>, d: Date, split: nat)
    requires split > 0
    ensures Current(Opened(d, lines), split, d)
    ensures (forall ds | Calendar(d, ds) :: WithinLimit(WriteAll(Opened(d, lines), split, ds), split)) <==> Room(lines, d, split)
  {
    hide WithinLimit, Calendar;
    Quotient(0, 0, split);
    RoomIsBounds(lines, d, split);
    LimitIff(Opened(d, lines), split, d);
  }

  lemma RoomIsBounds(lines: map<File, nat>, d: Date, split: nat)
    requires split > 0
    ensures WithinBounds(Opened(d, lines), split) <==> Room(lines, d, split)
  {
    Quotient(0, 0, split);
    var s := Opened(d, lines);
    assert forall f :: After(s.file, f) <==> f.day > d.day || (f.day == d.day && f.number > 0);
  }

  /** So a log may stop and be opened again on any later day. */
  lemma LaterDayHasRoom(s: Files, split: nat, last: Date, d: Date)
    requires split > 0 && Current(s, split, last) && WithinBounds(s, split) && last.day < d.day
    ensures Room(s.lines, d, split)
  {
  }

  lemma {:induction false} Filled(s: Files, split: nat, d: Date, m: nat)
    requires split > 0 && Current(s, split, d) && s.count % split + m < split
    ensures var r := WriteAll(s, split, seq(m, _ => d));
            r == s.(count := s.count + m, lines := if m == 0 then s.lines else s.lines[s.file := LinesIn(s, s.file) + m])
    decreases m
  {
    var ds := seq(m, _ => d);
    if m > 0 {
      CountOn(s.count, split);
      assert ds[1..] == seq(m - 1, _ => d);
      Filled(WriteLine(s, split, d), split, d, m - 1);
    }
  }

  /** But not on the same day: two lines of a first run and one file's worth of a second
      are too many for the file. */
  lemma RestartOverfills(split: nat, d: Date, n: nat)
    requires 2 <= n < split
    ensures var f := File(d.day, 0);
            var before := WriteAll(Opened(d, map[]), split, seq(n, _ => d)).lines;
            var after := WriteAll(Opened(d, before), split, seq(split - 1, _ => d)).lines;
            before == map[f := n] && Lines(after, f) == n + split - 1 > split
  {
    Quotient(0, 0, split);
    Filled(Opened(d, map[]), split, d, n);
    Filled(Opened(d, map[File(d.day, 0) := n]), split, d, split - 1);
  }

  // ---- in place ------------------------------------------------------------------------------

  class FileLog {
    const splitLines: nat
    var today: int
    var count: nat
    var file: File
    var lines: map<File, nat>

    ghost function State(): Files
      reads this
    {
      Files(today, count, file, lines)
    }

    /** fopen with "a": what the files hold stays. */
    constructor (splitLines: nat, d: Date, lines: map<File, nat>)
      ensures State() == Opened(d, lines) && this.splitLines == splitLines
    {
      this.splitLines := splitLines;
      today, count, file, this.lines := d.mday, 0, File(d.day, 0), lines;
    }

    /** write_log without its text: counts the line, reopens the file if the day of the
        month has changed or the count is due, and appends. */
    method WriteLog(now: Date)
      requires splitLines > 0
      modifies this
      ensures State() == WriteLine(old(State()), splitLines, now)
    {
      count := count + 1;
      if today != now.mday || count % splitLines == 0 {
        if today != now.mday {
          file := File(now.day, 0);
          today := now.mday;
          count := 0;
        } else {
          file := File(now.day, count / splitLines);
        }
      }
      lines := lines[file := (if file in lines then lines[file] else 0) + 1];
    }
  }
}
