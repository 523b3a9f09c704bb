/**
 * The leap-seconds file (the IERS/NIST leap-seconds.list format) as the leap
 * manager reads, scans, rewrites and checks it, over the lines of the file:
 * timestamps count seconds since 1900-01-01, the NTP epoch of section 6 of
 * RFC 5905. Disk access is left to the caller, the file hash and the parts of
 * time.ParseDuration beyond plain integers are parameters, and the decision
 * taken on a u-blox NAV-TIMELS indication is a pure function.
 */
module Leap {
  import opened Wrappers
  import opened GoStrings
  import opened GoStrconv

  /*
   * ParseLeapFile
   */

  /** One leap event: the time (seconds since 1900, as text), TAI-UTC from then on, and the comment. */
  datatype LeapEvent = LeapEvent(leapTime: string, leapSec: int, comment: string)

  /** The parsed file: the "#@" and "#$" times, the events in file order, and the "#h" hash. */
  datatype LeapFile = LeapFile(expirationTime: string, updateTime: string, leapEvents: seq<LeapEvent>, hash: string)

  /** The zero value of LeapFile. */
  const EmptyLeapFile := LeapFile("", "", [], "")

  /**
   * What ParseLeapFile gives: the file, the error for a leap count that does
   * not parse as an 8-bit integer, or the index panic of a "#$" or "#@" line
   * without a value.
   */
  datatype LeapParse = LeapParsed(file: LeapFile) | LeapSecError | IndexPanic

  /** A comment line: anything that starts with '#'. */
  predicate IsComment(line: string) {
    HasPrefix(line, "#")
  }

  /** The fields after the first, joined by single spaces. */
  function Rest(fields: seq<string>, from: nat): string {
    if |fields| <= from then "" else Join(fields[from..], " ")
  }

  /**
   * One line of ParseLeapFile: "#$", "#@" and "#h" lines set the update time,
   * the expiration time and the hash; other comments are skipped; a data line
   * with two fields or more adds an event, its second field read with
   * ParseInt(_, 10, 8).
   */
  function LeapLine(l: LeapFile, line: string): LeapParse {
    var fields := Fields(line);
    if HasPrefix(line, "#$") then
      if |fields| < 2 then IndexPanic else LeapParsed(l.(updateTime := fields[1]))
    else if HasPrefix(line, "#@") then
      if |fields| < 2 then IndexPanic else LeapParsed(l.(expirationTime := fields[1]))
    else if HasPrefix(line, "#h") then
      if |fields| < 1 then IndexPanic else LeapParsed(l.(hash := Rest(fields, 1)))
    else if IsComment(line) then LeapParsed(l)
    else if |fields| < 2 then LeapParsed(l)
    else match ParseInt(fields[1], 10, 8)
      case Parsed(sec) =>
        LeapParsed(l.(leapEvents := l.leapEvents + [LeapEvent(fields[0], sec, Rest(fields, 2))]))
      case _ => LeapSecError
  }

  /** The loop of ParseLeapFile over the lines. */
  function LeapLines(l: LeapFile, lines: seq<string>): LeapParse
    decreases |lines|
  {
    if lines == [] then LeapParsed(l)
    else match LeapLine(l, lines[0])
      case LeapParsed(next) => LeapLines(next, lines[1..])
      case failure => failure
  }

  /** What ParseLeapFile returns for the file's text. */
  function ParsedLeapFile(text: string): LeapParse {
    LeapLines(EmptyLeapFile, Split(text, "\n"))
  }

  /** ParseLeapFile: one pass over the lines of the file, appending the events. */
  method ParseLeapFile(text: string) returns (r: LeapParse)
    ensures r == ParsedLeapFile(text)
  {
    var l := EmptyLeapFile;
    var lines := Split(text, "\n");
    var i := 0;
    while i < |lines|
      invariant 0 <= i <= |lines|
      invariant LeapLines(l, lines[i..]) == ParsedLeapFile(text)
    {
      assert lines[i..][0] == lines[i] && lines[i..][1..] == lines[i + 1..];
      var fields := Fields(lines[i]);
      if HasPrefix(lines[i], "#$") {
        if |fields| < 2 {
          return IndexPanic;
        }
        l := l.(updateTime := fields[1]);
      } else if HasPrefix(lines[i], "#@") {
        if |fields| < 2 {
          return IndexPanic;
        }
        l := l.(expirationTime := fields[1]);
      } else if HasPrefix(lines[i], "#h") {
        if |fields| < 1 {
          return IndexPanic;
        }
        l := l.(hash := Rest(fields, 1));
      } else if !IsComment(lines[i]) {
        if |fields| >= 2 {
          var sec := ParseInt(fields[1], 10, 8);
          if !sec.Parsed? {
            return LeapSecError;
          }
          var ev := LeapEvent(fields[0], sec.n, Rest(fields, 2));
          l := l.(leapEvents := l.leapEvents + [ev]);
        }
      }
      i := i + 1;
    }
    assert lines[i..] == [];
    return LeapParsed(l);
  }

  /** The scan of a + b continues from where the scan of a stopped. */
  lemma {:induction false} LeapLinesAppend(l: LeapFile, a: seq<string>, b: seq<string>)
    ensures LeapLines(l, a + b)
         == match LeapLines(l, a)
            case LeapParsed(m) => LeapLines(m, b)
            case failure => failure
    decreases |a|
  {
    if a == [] {
      assert a + b == b;
    } else {
      assert (a + b)[0] == a[0] && (a + b)[1..] == a[1..] + b;
      match LeapLine(l, a[0])
      case LeapParsed(next) => LeapLinesAppend(next, a[1..], b);
      case _ =>
    }
  }

  /** A data line: not a comment, with two fields or more. */
  predicate IsDataLine(line: string) {
    !IsComment(line) && |Fields(line)| >= 2
  }

  /** A data line whose leap count is not an 8-bit integer. */
  predicate BadLeapSec(line: string) {
    IsDataLine(line) && !ParseInt(Fields(line)[1], 10, 8).Parsed?
  }

  /** A "#$" or "#@" line without a value after the tag. */
  predicate ShortHeader(line: string) {
    (HasPrefix(line, "#$") || HasPrefix(line, "#@")) && |Fields(line)| < 2
  }

  /** A line that starts with '#' has at least one field. */
  lemma {:induction false} CommentHasField(line: string)
    requires IsComment(line)
    ensures |Fields(line)| >= 1
  {
    assert line[0] == "#"[0];
    var n := WordLen(line);
    assert n >= 1;
  }

  /** The parse succeeds exactly when no data line has a bad leap count and every "#$" and "#@" line has a value. */
  lemma {:induction false} LeapParseSucceeds(l: LeapFile, lines: seq<string>)
    ensures LeapLines(l, lines).LeapParsed?
        <==> forall k :: 0 <= k < |lines| ==> !BadLeapSec(lines[k]) && !ShortHeader(lines[k])
    decreases |lines|
  {
    if lines != [] {
      var line := lines[0];
      assert forall k :: 0 < k < |lines| ==> lines[1..][k - 1] == lines[k];
      if HasPrefix(line, "#h") {
        CommentHasField(line);
      }
      TagIsComment(line);
      match LeapLine(l, line)
      case LeapParsed(next) =>
        LeapParseSucceeds(next, lines[1..]);
      case _ =>
    }
  }

  /** The data lines, in file order. */
  function DataLines(lines: seq<string>): (d: seq<string>)
    ensures |d| <= |lines|
    ensures forall k :: 0 <= k < |d| ==> IsDataLine(d[k])
    decreases |lines|
  {
    if lines == [] then []
    else (if IsDataLine(lines[0]) then [lines[0]] else []) + DataLines(lines[1..])
  }

  /** The event of a data line whose leap count parses: field 0, field 1, the rest joined by spaces. */
  function EventOf(line: string): (e: LeapEvent)
    requires IsDataLine(line) && !BadLeapSec(line)
    ensures -128 <= e.leapSec < 128
  {
    var fields := Fields(line);
    LeapEvent(fields[0], ParseInt(fields[1], 10, 8).n, Rest(fields, 2))
  }

  /** The events of a list of data lines, one each, in order. */
  function EventsOf(data: seq<string>): (es: seq<LeapEvent>)
    requires forall k :: 0 <= k < |data| ==> IsDataLine(data[k]) && !BadLeapSec(data[k])
    ensures |es| == |data|
    decreases |data|
  {
    if data == [] then [] else [EventOf(data[0])] + EventsOf(data[1..])
  }

  /** A parse appends one event per data line, in file order; comments and short lines add none. */
  lemma {:induction false} LeapEventsInOrder(l: LeapFile, lines: seq<string>)
    requires LeapLines(l, lines).LeapParsed?
    ensures forall k :: 0 <= k < |DataLines(lines)| ==> !BadLeapSec(DataLines(lines)[k])
    ensures LeapLines(l, lines).file.leapEvents == l.leapEvents + EventsOf(DataLines(lines))
    decreases |lines|
  {
    if lines != [] {
      var line := lines[0];
      var rest := DataLines(lines[1..]);
      assert LeapLine(l, line).LeapParsed?;
      var next := LeapLine(l, line).file;
      assert LeapLines(l, lines) == LeapLines(next, lines[1..]);
      LeapLineEvents(l, line);
      LeapEventsInOrder(next, lines[1..]);
      if IsDataLine(line) {
        assert DataLines(lines) == [line] + rest;
        assert EventsOf([line] + rest) == [EventOf(line)] + EventsOf(rest) by {
          assert ([line] + rest)[1..] == rest;
        }
        calc {
          LeapLines(l, lines).file.leapEvents;
          next.leapEvents + EventsOf(rest);
          (l.leapEvents + [EventOf(line)]) + EventsOf(rest);
          l.leapEvents + ([EventOf(line)] + EventsOf(rest));
          l.leapEvents + EventsOf(DataLines(lines));
        }
      } else {
        assert DataLines(lines) == rest;
        assert next.leapEvents == l.leapEvents;
      }
    }
  }

  /** One line that parses appends the event of a data line and nothing for any other line. */
  lemma {:induction false} LeapLineEvents(l: LeapFile, line: string)
    requires LeapLine(l, line).LeapParsed?
    ensures IsDataLine(line) ==> !BadLeapSec(line)
    ensures LeapLine(l, line).file.leapEvents
         == l.leapEvents + if IsDataLine(line) then [EventOf(line)] else []
  {
    TagIsComment(line);
  }

  /** A line tagged "#$", "#@" or "#h" is a comment. */
  lemma {:induction false} TagIsComment(line: string)
    ensures HasPrefix(line, "#$") || HasPrefix(line, "#@") || HasPrefix(line, "#h") ==> IsComment(line)
  {
    if |line| >= 2 {
      assert line[..1] == line[..2][..1];
    }
  }

  /** Every event of a parsed file holds an 8-bit leap count. */
  lemma {:induction false} LeapSecInRange(text: string)
    requires ParsedLeapFile(text).LeapParsed?
    ensures forall e :: e in ParsedLeapFile(text).file.leapEvents ==> -128 <= e.leapSec < 128
  {
    var lines := Split(text, "\n");
    LeapEventsInOrder(EmptyLeapFile, lines);
    var data := DataLines(lines);
    forall e | e in ParsedLeapFile(text).file.leapEvents
      ensures -128 <= e.leapSec < 128
    {
      assert e in EventsOf(data);
      EventInList(data, e);
    }
  }

  /** An event in EventsOf(data) is the event of one of the data lines. */
  lemma {:induction false} EventInList(data: seq<string>, e: LeapEvent)
    requires forall k :: 0 <= k < |data| ==> IsDataLine(data[k]) && !BadLeapSec(data[k])
    requires e in EventsOf(data)
    ensures exists k :: 0 <= k < |data| && e == EventOf(data[k])
    decreases |data|
  {
    if e != EventOf(data[0]) {
      assert e in EventsOf(data[1..]);
      EventInList(data[1..], e);
      var k :| 0 <= k < |data[1..]| && e == EventOf(data[1..][k]);
      assert data[1..][k] == data[k + 1];
    }
  }

  /** The three header tags of the file. */
  datatype Tag = UpdateTag | ExpirationTag | HashTag

  /** The tag a line starts with, if any. */
  function TagOf(line: string): Option<Tag> {
    if HasPrefix(line, "#$") then Some(UpdateTag)
    else if HasPrefix(line, "#@") then Some(ExpirationTag)
    else if HasPrefix(line, "#h") then Some(HashTag)
    else None
  }

  /** The value a tagged line carries: field 1 for the times, every field after the tag for the hash. */
  function TagValue(tag: Tag, line: string): string {
    var fields := Fields(line);
    match tag
    case HashTag => Rest(fields, 1)
    case _ => if |fields| < 2 then "" else fields[1]
  }

  /** The header field of the parsed file that a tag sets. */
  function Header(l: LeapFile, tag: Tag): string {
    match tag
    case UpdateTag => l.updateTime
    case ExpirationTag => l.expirationTime
    case HashTag => l.hash
  }

  /** A header that no line carries keeps its value. */
  lemma {:induction false} HeaderUntouched(l: LeapFile, lines: seq<string>, tag: Tag)
    requires forall k :: 0 <= k < |lines| ==> TagOf(lines[k]) != Some(tag)
    requires LeapLines(l, lines).LeapParsed?
    ensures Header(LeapLines(l, lines).file, tag) == Header(l, tag)
    decreases |lines|
  {
    if lines != [] {
      assert TagOf(lines[0]) != Some(tag);
      match LeapLine(l, lines[0])
      case LeapParsed(next) =>
        assert forall k :: 0 <= k < |lines[1..]| ==> lines[1..][k] == lines[k + 1];
        HeaderUntouched(next, lines[1..], tag);
    }
  }

  /** A repeated header takes its last value. */
  lemma {:induction false} HeaderLastWins(l: LeapFile, lines: seq<string>, i: nat, tag: Tag)
    requires i < |lines| && TagOf(lines[i]) == Some(tag)
    requires forall k :: i < k < |lines| ==> TagOf(lines[k]) != Some(tag)
    requires LeapLines(l, lines).LeapParsed?
    ensures Header(LeapLines(l, lines).file, tag) == TagValue(tag, lines[i])
  {
    var pre, post := lines[..i], lines[i + 1..];
    SliceAround(lines, i);
    LeapLinesAppend(l, pre, [lines[i]] + post);
    var q := LeapLines(l, pre).file;
    assert ([lines[i]] + post)[0] == lines[i] && ([lines[i]] + post)[1..] == post;
    var next := LeapLine(q, lines[i]).file;
    assert Header(next, tag) == TagValue(tag, lines[i]);
    assert forall k :: 0 <= k < |post| ==> post[k] == lines[i + 1 + k];
    HeaderUntouched(next, post, tag);
  }

  /*
   * GetLastLeapEventFromFile
   */

  /** Nanoseconds per second. */
  const NanosPerSecond: int := 1_000_000_000

  /** The most whole seconds a time.Duration holds: 2^63 nanoseconds, in whole seconds. */
  const MaxDurationSeconds: int := 9_223_372_036

  /** Text made of decimal digits only. */
  predicate Digits(text: string) {
    forall k :: 0 <= k < |text| ==> '0' <= text[k] <= '9'
  }

  /**
   * time.ParseDuration(text + "s"). An optional sign and decimal digits is a
   * whole number of seconds, an error past MaxDurationSeconds; text without
   * digits is an error; any other form (a fraction, a unit letter) is left to
   * `otherForms`.
   */
  function SecondsDuration(text: string, otherForms: string -> Option<int>): (d: Option<int>)
    ensures text == [] ==> d == None
  {
    var neg := text != [] && text[0] == '-';
    var digits := if text != [] && (text[0] == '+' || text[0] == '-') then text[1..] else text;
    if digits == [] then None
    else match DigitsValue(digits, 10, 0)
      case None => otherForms(text)
      case Some(v) =>
        if v > MaxDurationSeconds then None
        else Some(if neg then -(v * NanosPerSecond) else v * NanosPerSecond)
  }

  /** Plain decimal seconds never reach `otherForms`: the result is a whole number of seconds, at most MaxDurationSeconds. */
  lemma {:induction false} PlainSeconds(text: string, otherForms: string -> Option<int>)
    requires text != [] && Digits(text)
    ensures DigitsValue(text, 10, 0).Some?
    ensures var d := SecondsDuration(text, otherForms);
            d.Some? <==> DigitsValue(text, 10, 0).value <= MaxDurationSeconds
    ensures var d := SecondsDuration(text, otherForms);
            d.Some? ==> d.value == DigitsValue(text, 10, 0).value * NanosPerSecond
  {
    DecimalDigitsValue(text, 0);
  }

  /**
   * What GetLastLeapEventFromFile gives: the event time as nanoseconds after
   * 1900-01-01 and the leap count, or the error that ends the scan.
   */
  datatype LastLeap =
    | LastLeap(nanos: int, leapSec: int)
    | ShortEventLine
    | BadEventTime
    | BadEventCount
    | NoLastEvent

  /** The event of the chosen line: field 0 as seconds after 1900, field 1 through Atoi. */
  function DecodeLast(line: string, otherForms: string -> Option<int>): LastLeap {
    var event := Fields(line);
    if |event| < 2 then ShortEventLine
    else match SecondsDuration(event[0], otherForms)
      case None => BadEventTime
      case Some(d) =>
        match Atoi(event[1])
        case Parsed(n) => LastLeap(d, n)
        case _ => BadEventCount
  }

  /** The first index at or after `from` whose line is (or is not) a comment, or |lines|. */
  function FirstIndex(lines: seq<string>, from: nat, comment: bool): (k: nat)
    requires from <= |lines|
    ensures from <= k <= |lines|
    ensures forall m :: from <= m < k ==> IsComment(lines[m]) != comment
    ensures k < |lines| ==> IsComment(lines[k]) == comment
    decreases |lines| - from
  {
    if from == |lines| || IsComment(lines[from]) == comment then from
    else FirstIndex(lines, from + 1, comment)
  }

  /** The line the scan reads: the one before the first comment that follows the first data line. */
  function LastEventIndex(lines: seq<string>): (m: Option<nat>)
    ensures m.Some? ==> m.value + 1 < |lines|
  {
    var j := FirstIndex(lines, 0, false);
    var k := FirstIndex(lines, j, true);
    if k == |lines| then None else Some(k - 1)
  }

  /** What GetLastLeapEventFromFile returns for the lines of the file. */
  function LastLeapEvent(lines: seq<string>, otherForms: string -> Option<int>): LastLeap {
    match LastEventIndex(lines)
    case None => NoLastEvent
    case Some(m) => DecodeLast(lines[m], otherForms)
  }

  /** GetLastLeapEventFromFile: the scan with the leapSection flag. */
  method GetLastLeapEventFromFile(text: string, otherForms: string -> Option<int>) returns (r: LastLeap)
    ensures r == GetLastLeapEventResult(text, otherForms)
  {
    var lines := Split(text, "\n");
    ghost var j := FirstIndex(lines, 0, false);
    ghost var k := FirstIndex(lines, j, true);
    var leapSection := false;
    var i := 0;
    while i < |lines|
      invariant 0 <= i <= |lines|
      invariant leapSection == (j < i)
      invariant i <= k
    {
      if !IsComment(lines[i]) {
        leapSection := true;
      }
      if leapSection && IsComment(lines[i]) {
        return DecodeLast(lines[i - 1], otherForms);
      }
      i := i + 1;
    }
    return NoLastEvent;
  }

  /**
   * The shape of the file up to the line the scan reads: comments, then data
   * lines down to line m, then a comment.
   */
  predicate LastEventShape(lines: seq<string>, m: nat) {
    m + 1 < |lines| && IsComment(lines[m + 1]) && !IsComment(lines[m])
    && forall x, y :: 0 <= x < y <= m && !IsComment(lines[x]) ==> !IsComment(lines[y])
  }

  /** The scan reads line m exactly when the file has that shape. */
  lemma {:induction false} LastEventIndexShape(lines: seq<string>, m: nat)
    ensures LastEventIndex(lines) == Some(m) <==> LastEventShape(lines, m)
  {
    var j := FirstIndex(lines, 0, false);
    var k := FirstIndex(lines, j, true);
    if LastEventShape(lines, m) {
      assert j <= m;
      assert !IsComment(lines[j]);
      assert forall y :: j <= y <= m ==> !IsComment(lines[y]);
      assert k == m + 1;
    }
  }

  /** A data line of the file is among its data lines. */
  lemma {:induction false} InDataLines(lines: seq<string>, m: nat)
    requires m < |lines| && IsDataLine(lines[m])
    ensures lines[m] in DataLines(lines)
    decreases m
  {
    if m > 0 {
      assert lines[1..][m - 1] == lines[m];
      InDataLines(lines[1..], m - 1);
    }
  }

  /** The event of a listed data line is among the listed events. */
  lemma {:induction false} InEventsOf(data: seq<string>, line: string)
    requires forall k :: 0 <= k < |data| ==> IsDataLine(data[k]) && !BadLeapSec(data[k])
    requires line in data
    ensures IsDataLine(line) && !BadLeapSec(line)
    ensures EventOf(line) in EventsOf(data)
    decreases |data|
  {
    if data[0] != line {
      assert line in data[1..];
      InEventsOf(data[1..], line);
    }
  }

  /**
   * When the file parses, the line the last-event scan reads is one of the
   * events ParseLeapFile lists, and the scan reports that event's leap count
   * (Atoi reads the same value as ParseInt in 8 bits).
   */
  lemma {:induction false} LastEventIsParsedEvent(text: string, m: nat, otherForms: string -> Option<int>)
    requires ParsedLeapFile(text).LeapParsed?
    requires LastEventIndex(Split(text, "\n")) == Some(m) && IsDataLine(Split(text, "\n")[m])
    ensures var line := Split(text, "\n")[m];
            !BadLeapSec(line) && EventOf(line) in ParsedLeapFile(text).file.leapEvents
    ensures var r := GetLastLeapEventResult(text, otherForms);
            r.LastLeap? || r.BadEventTime?
    ensures var r := GetLastLeapEventResult(text, otherForms);
            r.LastLeap? ==> r.leapSec == EventOf(Split(text, "\n")[m]).leapSec
  {
    var lines := Split(text, "\n");
    var line := lines[m];
    LeapEventsInOrder(EmptyLeapFile, lines);
    InDataLines(lines, m);
    InEventsOf(DataLines(lines), line);
    var fields := Fields(line);
    ParseIntWiden(fields[1], 10, 8, 64);
  }

  /** GetLastLeapEventFromFile's result for the text of the file. */
  function GetLastLeapEventResult(text: string, otherForms: string -> Option<int>): LastLeap {
    LastLeapEvent(Split(text, "\n"), otherForms)
  }

  /*
   * AddLeapEvent
   */

  /**
   * The inputs of AddLeapEvent: the leap time, the expiration time and the
   * modification time as whole seconds after 1900-01-01, the new leap count,
   * and the day, month and year text of the leap time for the comment.
   */
  datatype LeapUpdate = LeapUpdate(leap: int, leapSec: int, expired: int, modified: int, date: string)

  /** The inserted event line: its six parts joined with single spaces. */
  function NewEventLine(u: LeapUpdate): (line: string)
    ensures line != [] && line[0] == FormatInt(u.leap)[0]
  {
    Join([FormatInt(u.leap), "    ", FormatInt(u.leapSec), "    ", "#", u.date], " ")
  }

  /** A "#$" or "#@" line with its new time, tag and seconds separated by a tab; any other line as it is. */
  function Retimed(line: string, u: LeapUpdate): string {
    if HasPrefix(line, "#$") then Join(["#$", FormatInt(u.modified)], "\t")
    else if HasPrefix(line, "#@") then Join(["#@", FormatInt(u.expired)], "\t")
    else line
  }

  /** The hash line: the tag, a tab and the hash. */
  function HashLine(h: string): string {
    Join(["#h", h], "\t")
  }

  /** The loop variables of AddLeapEvent: the lines written so far and the leapSection flag. */
  datatype AddState = AddState(out: seq<string>, leapSection: bool)

  /**
   * One line of AddLeapEvent: the line is retimed; a comment that ends a run
   * of data lines gets the new event line written before it; a "#h" line
   * becomes the hash of everything written before it.
   */
  function AddLine(st: AddState, original: string, u: LeapUpdate, hash: string -> string): AddState {
    var line := Retimed(original, u);
    var section := st.leapSection || !IsComment(line);
    var insert := section && IsComment(line);
    var out := if insert then st.out + [NewEventLine(u)] else st.out;
    var written := if HasPrefix(line, "#h") then HashLine(hash(Join(out, "\n"))) else line;
    AddState(out + [written], section && !insert)
  }

  /** The loop of AddLeapEvent over the lines. */
  function AddLines(st: AddState, lines: seq<string>, u: LeapUpdate, hash: string -> string): AddState
    decreases |lines|
  {
    if lines == [] then st else AddLines(AddLine(st, lines[0], u, hash), lines[1..], u, hash)
  }

  /** The text AddLeapEvent writes back to the file. */
  function AddedLeapFile(text: string, u: LeapUpdate, hash: string -> string): string {
    Join(AddLines(AddState([], false), Split(text, "\n"), u, hash).out, "\n")
  }

  /** AddLeapEvent: rewrites the lines in place and collects the output. */
  method AddLeapEvent(text: string, u: LeapUpdate, hash: string -> string) returns (output: string)
    ensures output == AddedLeapFile(text, u, hash)
  {
    var lines := Split(text, "\n");
    ghost var original := lines;
    var out: seq<string> := [];
    var leapSection := false;
    var i := 0;
    while i < |lines|
      invariant 0 <= i <= |lines| == |original|
      invariant lines[i..] == original[i..]
      invariant AddLines(AddState(out, leapSection), lines[i..], u, hash)
             == AddLines(AddState([], false), original, u, hash)
    {
      assert lines[i..][0] == lines[i] && lines[i..][1..] == lines[i + 1..];
      ghost var rest := lines[i + 1..];
      if HasPrefix(lines[i], "#$") {
        lines := lines[i := Join(["#$", FormatInt(u.modified)], "\t")];
      } else if HasPrefix(lines[i], "#@") {
        lines := lines[i := Join(["#@", FormatInt(u.expired)], "\t")];
      }
      if !IsComment(lines[i]) {
        leapSection := true;
      }
      if leapSection && IsComment(lines[i]) {
        out := out + [NewEventLine(u)];
        leapSection := false;
      }
      if HasPrefix(lines[i], "#h") {
        var s := Join(out, "\n");
        lines := lines[i := Join(["#h", hash(s)], "\t")];
      }
      out := out + [lines[i]];
      assert lines[i + 1..] == rest;
      i := i + 1;
    }
    assert lines[i..] == [];
    return Join(out, "\n");
  }

  /** The pieces one line stands for: the new event line when it is a comment after a data line, then the retimed line. */
  function HeadPieces(afterData: bool, line: string, u: LeapUpdate): seq<string> {
    (if afterData && IsComment(line) then [NewEventLine(u)] else []) + [Retimed(line, u)]
  }

  /**
   * The lines AddLeapEvent writes, read line by line: each line retimed, with
   * the new event line before every comment that directly follows a data line
   * (`afterData` says whether the line before the first one was a data line).
   */
  function Pieces(afterData: bool, lines: seq<string>, u: LeapUpdate): seq<string>
    decreases |lines|
  {
    if lines == [] then []
    else HeadPieces(afterData, lines[0], u) + Pieces(!IsComment(lines[0]), lines[1..], u)
  }

  /** Line q of the output is the piece, or, for a "#h" piece, the hash line of every line before it. */
  predicate WrittenAs(written: seq<string>, q: nat, piece: string, hash: string -> string)
    requires q < |written|
  {
    if HasPrefix(piece, "#h") then written[q] == HashLine(hash(Join(written[..q], "\n")))
    else written[q] == piece
  }

  /** Retiming keeps a line a comment or a data line, and never makes or unmakes a "#h" line. */
  lemma {:induction false} RetimedKind(line: string, u: LeapUpdate)
    ensures IsComment(Retimed(line, u)) == IsComment(line)
    ensures HasPrefix(Retimed(line, u), "#h") == HasPrefix(line, "#h")
  {
    TagIsComment(line);
    if HasPrefix(line, "#$") || HasPrefix(line, "#@") {
      assert line[..2][1] == line[1] && line[1] != 'h';
      var tag := if HasPrefix(line, "#$") then "#$" else "#@";
      var time := FormatInt(if HasPrefix(line, "#$") then u.modified else u.expired);
      var r := Retimed(line, u);
      JoinTwo(tag, time, "\t");
      assert r[0] == '#' && r[1] == tag[1] != 'h';
      assert r[..1] == "#" && r[..2] != "#h";
    }
  }

  /** The new event line is neither a comment nor a "#h" line. */
  lemma {:induction false} NewEventLineKind(u: LeapUpdate)
    ensures !IsComment(NewEventLine(u)) && !HasPrefix(NewEventLine(u), "#h")
  {
    var line := NewEventLine(u);
    assert line[0] != '#';
    assert |line| >= 2 ==> line[..2][0] == line[0];
  }

  /** `r` is `before` followed by the pieces `p`, as AddLeapEvent writes them. */
  predicate WrittenFrom(r: seq<string>, before: seq<string>, p: seq<string>, hash: string -> string) {
    |r| == |before| + |p| && r[..|before|] == before
    && forall q :: 0 <= q < |p| ==> WrittenAs(r, |before| + q, p[q], hash)
  }

  /** One step: AddLine writes the line's pieces, a "#h" piece as the hash line of what precedes it, and leaves the flag saying whether the line was a data line. */
  lemma {:induction false} AddLineStep(st: AddState, line: string, u: LeapUpdate, hash: string -> string)
    ensures AddLine(st, line, u, hash).leapSection == !IsComment(line)
    ensures WrittenFrom(AddLine(st, line, u, hash).out, st.out, HeadPieces(st.leapSection, line, u), hash)
  {
    RetimedKind(line, u);
    NewEventLineKind(u);
    var ins := if st.leapSection && IsComment(line) then [NewEventLine(u)] else [];
    var next := AddLine(st, line, u, hash);
    assert next.out == st.out + ins + [next.out[|next.out| - 1]];
    assert next.out[..|st.out| + |ins|] == st.out + ins;
    assert next.out[..|st.out|] == st.out;
  }

  /** AddLeapEvent writes exactly the pieces, each "#h" piece replaced by the hash of everything written before it. */
  lemma {:induction false} AddLinesPieces(st: AddState, lines: seq<string>, u: LeapUpdate, hash: string -> string)
    ensures WrittenFrom(AddLines(st, lines, u, hash).out, st.out, Pieces(st.leapSection, lines, u), hash)
    decreases |lines|
  {
    if lines == [] {
      assert st.out[..|st.out|] == st.out;
    } else {
      var next := AddLine(st, lines[0], u, hash);
      AddLineStep(st, lines[0], u, hash);
      AddLinesPieces(next, lines[1..], u, hash);
      WrittenConcat(AddLines(next, lines[1..], u, hash).out, st.out, next.out,
        HeadPieces(st.leapSection, lines[0], u), Pieces(next.leapSection, lines[1..], u), hash);
    }
  }

  /** The lines one step writes, followed by the lines the rest writes. */
  lemma {:induction false} WrittenConcat(r: seq<string>, before: seq<string>, mid: seq<string>, head: seq<string>, p1: seq<string>, hash: string -> string)
    requires WrittenFrom(mid, before, head, hash) && WrittenFrom(r, mid, p1, hash)
    ensures WrittenFrom(r, before, head + p1, hash)
  {
    assert r[..|before|] == r[..|mid|][..|before|];
    forall q | 0 <= q < |head + p1|
      ensures WrittenAs(r, |before| + q, (head + p1)[q], hash)
    {
      if q < |head| {
        assert (head + p1)[q] == head[q];
        WrittenInPrefix(r, mid, |before| + q, head[q], hash);
      } else {
        var q1 := q - |head|;
        assert (head + p1)[q] == p1[q1];
        assert |before| + q == |mid| + q1;
        assert WrittenAs(r, |mid| + q1, p1[q1], hash);
      }
    }
  }

  /** What a prefix of the output says about one of its lines, the whole output says too. */
  lemma {:induction false} WrittenInPrefix(r: seq<string>, s: seq<string>, q: nat, piece: string, hash: string -> string)
    requires q < |s| <= |r| && r[..|s|] == s
    requires WrittenAs(s, q, piece, hash)
    ensures WrittenAs(r, q, piece, hash)
  {
    assert r[q] == s[q];
    assert r[..q] == s[..q] by {
      assert r[..q] == r[..|s|][..q];
    }
  }

  /** No line starts with "#h". */
  predicate NoHashLine(lines: seq<string>) {
    forall k :: 0 <= k < |lines| ==> !HasPrefix(lines[k], "#h")
  }

  /** No piece is a "#h" line when no line is one. */
  lemma {:induction false} PiecesNoHash(afterData: bool, lines: seq<string>, u: LeapUpdate)
    requires NoHashLine(lines)
    ensures NoHashLine(Pieces(afterData, lines, u))
    decreases |lines|
  {
    if lines != [] {
      RetimedKind(lines[0], u);
      NewEventLineKind(u);
      assert NoHashLine(lines[1..]) by {
        assert forall k :: 0 <= k < |lines[1..]| ==> lines[1..][k] == lines[k + 1];
      }
      PiecesNoHash(!IsComment(lines[0]), lines[1..], u);
    }
  }

  /** Without a "#h" line, AddLeapEvent writes exactly the pieces: the retimed lines in order, and one event line before each comment that follows a data line. */
  lemma {:induction false} AddWithoutHash(lines: seq<string>, u: LeapUpdate, hash: string -> string)
    requires NoHashLine(lines)
    ensures AddLines(AddState([], false), lines, u, hash).out == Pieces(false, lines, u)
  {
    var st := AddState([], false);
    AddLinesPieces(st, lines, u, hash);
    PiecesNoHash(false, lines, u);
    var r := AddLines(st, lines, u, hash).out;
    var p := Pieces(false, lines, u);
    forall q | 0 <= q < |p|
      ensures r[q] == p[q]
    {
      assert WrittenAs(r, |st.out| + q, p[q], hash);
    }
  }

  /*
   * CheckLeapFileIntegrity
   */

  /** The hash a "#h" line holds: its fields after the tag, joined by single spaces. */
  function HashOf(line: string): string {
    Rest(Fields(line), 1)
  }

  /** The hash held by the last "#h" line, or "" when there is none. */
  function StoredHash(lines: seq<string>): string
    decreases |lines|
  {
    if lines == [] then ""
    else if HasPrefix(lines[|lines| - 1], "#h") then HashOf(lines[|lines| - 1])
    else StoredHash(lines[..|lines| - 1])
  }

  /** CheckLeapFileIntegrity: a backward scan for the last "#h" line, then a comparison with the hash of the whole text. */
  method CheckLeapFileIntegrity(text: string, hash: string -> string) returns (ok: bool)
    ensures ok <==> hash(text) == StoredHash(Split(text, "\n"))
  {
    var lines := Split(text, "\n");
    var hashOnFile := "";
    var i := |lines| - 1;
    assert lines[..i + 1] == lines;
    while i >= 0
      invariant -1 <= i < |lines|
      invariant StoredHash(lines[..i + 1]) == StoredHash(lines)
      invariant hashOnFile == ""
      decreases i
    {
      if HasPrefix(lines[i], "#h") {
        assert lines[..i + 1][i] == lines[i];
        hashOnFile := HashOf(lines[i]);
        break;
      }
      assert lines[..i + 1][..i] == lines[..i];
      i := i - 1;
    }
    ok := hash(text) == hashOnFile;
  }

  /** The stored hash is the one of the last "#h" line. */
  lemma {:induction false} StoredHashIsLast(lines: seq<string>, k: nat)
    requires k < |lines| && HasPrefix(lines[k], "#h")
    requires forall j :: k < j < |lines| ==> !HasPrefix(lines[j], "#h")
    ensures StoredHash(lines) == HashOf(lines[k])
    decreases |lines|
  {
    if k < |lines| - 1 {
      var init := lines[..|lines| - 1];
      assert forall j :: k < j < |init| ==> init[j] == lines[j];
      StoredHashIsLast(init, k);
    }
  }

  /** Without a "#h" line the stored hash is empty. */
  lemma {:induction false} StoredHashAbsent(lines: seq<string>)
    requires NoHashLine(lines)
    ensures StoredHash(lines) == ""
    decreases |lines|
  {
    if lines != [] {
      var init := lines[..|lines| - 1];
      assert forall j :: 0 <= j < |init| ==> init[j] == lines[j];
      StoredHashAbsent(init);
    }
  }

  /** A line that starts with "#h" is the one tag ParseLeapFile reads as the hash. */
  lemma {:induction false} HashTagOf(line: string)
    ensures TagOf(line) == Some(HashTag) <==> HasPrefix(line, "#h")
  {
    if HasPrefix(line, "#h") {
      assert line[..2][1] == line[1] == 'h';
    }
  }

  /** The hash ParseLeapFile records is the one CheckLeapFileIntegrity compares. */
  lemma {:induction false} ParsedHashIsStored(l: LeapFile, lines: seq<string>)
    requires l.hash == "" && LeapLines(l, lines).LeapParsed?
    ensures LeapLines(l, lines).file.hash == StoredHash(lines)
    decreases |lines|
  {
    if lines != [] {
      var init, last := lines[..|lines| - 1], lines[|lines| - 1];
      assert lines == init + [last];
      LeapLinesAppend(l, init, [last]);
      ParsedHashIsStored(l, init);
      var m := LeapLines(l, init).file;
      assert ([last])[1..] == [];
      HashTagOf(last);
      TagIsComment(last);
    }
  }

  /** A word: nonempty, with no space in it. */
  predicate IsWord(s: string) {
    s != [] && forall c :: c in s ==> !IsSpace(c)
  }

  /**
   * Hash text as a "#h" line holds it: one or more words separated by single
   * spaces, the way ParseLeapFile and CheckLeapFileIntegrity rebuild it.
   */
  predicate IsHashText(h: string) {
    h != [] && Join(Fields(h), " ") == h
  }

  /** Words joined by single spaces split back into those words, so they are hash text. */
  lemma {:induction false} JoinedWords(ws: seq<string>)
    requires ws != [] && forall w :: w in ws ==> IsWord(w)
    ensures Fields(Join(ws, " ")) == ws
    ensures IsHashText(Join(ws, " "))
    decreases |ws|
  {
    var w := ws[0];
    assert w in ws;
    if |ws| == 1 {
      FieldsWord(w, []);
      assert w + [] == w;
      assert ws == [w];
    } else {
      var rest := ws[1..];
      assert forall x :: x in rest ==> x in ws;
      JoinedWords(rest);
      assert ws == [w] + rest;
      JoinCons(w, rest, " ");
      assert " " + Join(rest, " ") == [' '] + Join(rest, " ");
      FieldsWord(w, " " + Join(rest, " "));
      FieldsSkipSpace(' ', Join(rest, " "));
    }
  }

  /** Reading back the hash line AddLeapEvent writes gives the hash. */
  lemma {:induction false} HashLineRoundTrip(h: string)
    requires IsHashText(h)
    ensures HasPrefix(HashLine(h), "#h")
    ensures HashOf(HashLine(h)) == h
  {
    JoinTwo("#h", h, "\t");
    assert HashLine(h) == "#h" + ("\t" + h);
    assert "\t" + h == ['\t'] + h;
    FieldsWord("#h", "\t" + h);
    FieldsSkipSpace('\t', h);
    var fs := Fields(HashLine(h));
    assert fs == ["#h"] + Fields(h);
    assert fs[1..] == Fields(h);
    assert HashLine(h)[..2] == "#h";
  }

  /**
   * After AddLeapEvent, the integrity check reads from the last "#h" line the
   * hash of every line written before it.
   */
  lemma {:induction false} AddedStoredHash(lines: seq<string>, u: LeapUpdate, hash: string -> string, p: nat)
    requires forall s :: IsHashText(hash(s))
    requires p < |Pieces(false, lines, u)| && HasPrefix(Pieces(false, lines, u)[p], "#h")
    requires forall q :: p < q < |Pieces(false, lines, u)| ==> !HasPrefix(Pieces(false, lines, u)[q], "#h")
    ensures var out := AddLines(AddState([], false), lines, u, hash).out;
            p < |out| && StoredHash(out) == hash(Join(out[..p], "\n"))
  {
    var st := AddState([], false);
    var out := AddLines(st, lines, u, hash).out;
    var pieces := Pieces(false, lines, u);
    AddLinesPieces(st, lines, u, hash);
    assert WrittenAs(out, |st.out| + p, pieces[p], hash);
    HashLineRoundTrip(hash(Join(out[..p], "\n")));
    forall q | p < q < |out|
      ensures !HasPrefix(out[q], "#h")
    {
      assert WrittenAs(out, |st.out| + q, pieces[q], hash);
    }
    StoredHashIsLast(out, p);
  }

  /** Six parts joined with a separator, spelled out. */
  lemma {:induction false} JoinSix(a: string, b: string, c: string, d: string, e: string, f: string, sep: string)
    ensures Join([a, b, c, d, e, f], sep) == a + (sep + (b + (sep + (c + (sep + (d + (sep + (e + (sep + f)))))))))
  {
    JoinTwo(e, f, sep);
    assert e + sep + f == e + (sep + f);
    JoinCons(d, [e, f], sep);
    assert [d] + [e, f] == [d, e, f];
    JoinCons(c, [d, e, f], sep);
    assert [c] + [d, e, f] == [c, d, e, f];
    JoinCons(b, [c, d, e, f], sep);
    assert [b] + [c, d, e, f] == [b, c, d, e, f];
    JoinCons(a, [b, c, d, e, f], sep);
    assert [a] + [b, c, d, e, f] == [a, b, c, d, e, f];
  }

  /** One more part in front: the part, the separator, then the rest joined. */
  lemma {:induction false} JoinCons(x: string, rest: seq<string>, sep: string)
    requires rest != []
    ensures Join([x] + rest, sep) == x + (sep + Join(rest, sep))
  {
    assert ([x] + rest)[1..] == rest;
  }

  /** A word, then spaces: the word is the first field. */
  lemma {:induction false} WordThenSpaces(w: string, sp: string, t: string)
    requires IsWord(w) && sp != [] && forall c :: c in sp ==> IsSpace(c)
    ensures Fields(w + (sp + t)) == [w] + Fields(t)
  {
    assert sp[0] in sp;
    FieldsWord(w, sp + t);
    FieldsSkipSpaces(sp, t);
  }

  /** The event line reads back as its leap time, its leap count, "#" and the date's words. */
  lemma {:induction false} NewEventLineFields(u: LeapUpdate)
    ensures Fields(NewEventLine(u)) == [FormatInt(u.leap), FormatInt(u.leapSec), "#"] + Fields(u.date)
  {
    var lt, ls := FormatInt(u.leap), FormatInt(u.leapSec);
    var gap := "    ";
    var sp := " " + gap + " ";
    var s4 := "#" + (" " + u.date);
    var s2 := ls + (" " + (gap + (" " + s4)));
    assert IsWord(lt) && IsWord(ls) && IsWord("#");
    calc {
      Fields(NewEventLine(u));
    == { JoinSix(lt, gap, ls, gap, "#", u.date, " "); }
      Fields(lt + (" " + (gap + (" " + s2))));
    == { SpaceRun(gap, s2); }
      Fields(lt + (sp + s2));
    == { WordThenSpaces(lt, sp, s2); }
      [lt] + Fields(s2);
    == { SpaceRun(gap, s4); WordThenSpaces(ls, sp, s4); }
      [lt] + ([ls] + Fields(s4));
    == { WordThenSpaces("#", " ", u.date); }
      [lt] + ([ls] + (["#"] + Fields(u.date)));
    == 
      [lt, ls, "#"] + Fields(u.date);
    }
  }

  /** A blank, a gap of blanks and a blank make one run of spaces. */
  lemma {:induction false} SpaceRun(gap: string, t: string)
    requires gap == "    "
    ensures " " + (gap + (" " + t)) == (" " + gap + " ") + t
    ensures forall c :: c in " " + gap + " " ==> IsSpace(c)
  {
  }

  /**
   * ParseLeapFile reads the event line AddLeapEvent inserts as exactly the new
   * event: its time, its leap count (when it fits 8 bits) and "#" and the date
   * as the comment.
   */
  lemma {:induction false} NewEventParses(u: LeapUpdate)
    requires -128 <= u.leapSec < 128
    ensures IsDataLine(NewEventLine(u)) && !BadLeapSec(NewEventLine(u))
    ensures EventOf(NewEventLine(u)) == LeapEvent(FormatInt(u.leap), u.leapSec, Join(["#"] + Fields(u.date), " "))
  {
    NewEventLineFields(u);
    NewEventLineKind(u);
    FormatParseRoundTrip(u.leapSec, 8);
    var fields := Fields(NewEventLine(u));
    assert fields[1] == FormatInt(u.leapSec);
    assert fields[2..] == ["#"] + Fields(u.date);
  }

  /**
   * The last-event scan reads an inserted event line back as the same leap
   * time, in nanoseconds, and the same count, whenever the time fits a
   * time.Duration.
   */
  lemma {:induction false} NewEventReadBack(u: LeapUpdate, otherForms: string -> Option<int>)
    requires 0 <= u.leap <= MaxDurationSeconds
    requires -TwoTo63 <= u.leapSec < TwoTo63
    ensures DecodeLast(NewEventLine(u), otherForms) == LastLeap(u.leap * NanosPerSecond, u.leapSec)
  {
    NewEventLineFields(u);
    DecimalDigitsValueRoundTrip(u.leap);
    FormatParseRoundTrip(u.leapSec, 64);
    assert SecondsDuration(FormatInt(u.leap), otherForms) == Some(u.leap * NanosPerSecond);
  }

  /*
   * HandleLeapIndication
   */

  /** The fields of a u-blox UBX-NAV-TIMELS message that the leap manager reads. */
  datatype TimeLs = TimeLs(
    srcOfCurrLs: int,
    valid: nat,
    currLs: int,
    lsChange: int,
    timeToLsEvent: int,
    dateOfLsGpsWn: nat,
    dateOfLsGpsDn: nat)

  /** SrcOfCurrLs of an indication that comes from GPS. */
  const LeapSourceGps: int := 2

  /** TAI-UTC minus GPS-UTC: 37 - 18 seconds, the difference between the two leap counts. */
  const GpsLeapToUtcLeap: int := 37 - 18

  /** The Valid bit that says CurrLs is valid. */
  const CurrLsValidMask: nat := 0x1

  /** The Valid bit that says the time to the leap event is valid. */
  const TimeToLsEventValidMask: nat := 0x2

  /** valid & mask > 0 for a one-bit mask. */
  predicate HasBit(valid: nat, mask: nat)
    requires mask == 1 || mask == 2
  {
    (valid / mask) % 2 == 1
  }

  /** A Gregorian leap year. */
  predicate IsLeapYear(y: int) {
    y % 4 == 0 && (y % 100 != 0 || y % 400 == 0)
  }

  /** The Gregorian leap years from year 1 up to, not including, year y. */
  function LeapYearsBefore(y: int): int
    requires y >= 1
  {
    (y - 1) / 4 - (y - 1) / 100 + (y - 1) / 400
  }

  /** Days from 1900-01-01 to January 1st of year y. */
  function DaysToYear(y: int): (d: int)
    requires y >= 1900
    ensures d >= 0
  {
    365 * (y - 1900) + LeapYearsBefore(y) - LeapYearsBefore(1900)
  }

  /** Each year adds 366 days when it is a leap year and 365 otherwise. */
  lemma {:induction false} DaysToYearStep(y: int)
    requires y >= 1900
    ensures DaysToYear(y + 1) == DaysToYear(y) + if IsLeapYear(y) then 366 else 365
  {
    LeapYearsStep(y);
  }

  /** Going from year y to y + 1 adds one leap year when y is one. */
  lemma {:induction false} LeapYearsStep(y: int)
    requires y >= 1
    ensures LeapYearsBefore(y + 1) == LeapYearsBefore(y) + if IsLeapYear(y) then 1 else 0
  {
    DivStep(y - 1, 4);
    DivStep(y - 1, 100);
    DivStep(y - 1, 400);
    if y % 400 == 0 {
      var k := y / 400;
      DivUnique(y, 100, 4 * k, 0);
      DivUnique(y, 4, 100 * k, 0);
    } else if y % 100 == 0 {
      var k := y / 100;
      DivUnique(y, 4, 25 * k, 0);
    }
  }

  /** (x + 1) / d grows by one exactly when d divides x + 1. */
  lemma {:induction false} DivStep(x: int, d: int)
    requires x >= 0 && d > 0
    ensures (x + 1) / d == x / d + if (x + 1) % d == 0 then 1 else 0
  {
    var q, r := x / d, x % d;
    DivUnique(x, d, q, r);
    if r == d - 1 {
      DivUnique(x + 1, d, q + 1, 0);
    } else {
      DivUnique(x + 1, d, q, r + 1);
    }
  }

  /** Quotient and remainder are the only ones with x == q * m + r and 0 <= r < m. */
  lemma {:induction false} DivUnique(x: int, m: int, q: int, r: int)
    requires m > 0 && x == q * m + r && 0 <= r < m
    ensures x / m == q && x % m == r
  {
    ModUnique(x, m, q, r);
    var k := x / m;
    assert (k - q) * m == 0;
  }

  /** Days before the first of month m (1 to 12) in year y. */
  function DaysBeforeMonth(y: int, m: int): int
    requires 1 <= m <= 12
  {
    var table := [0, 31, 59, 90, 120, 151, 181, 212, 243, 273, 304, 334];
    table[m - 1] + if m > 2 && IsLeapYear(y) then 1 else 0
  }

  /** Days from 1900-01-01 to the given date (time.Date in UTC). */
  function DaysSince1900(y: int, m: int, d: int): int
    requires y >= 1900 && 1 <= m <= 12
  {
    DaysToYear(y) + DaysBeforeMonth(y, m) + d - 1
  }

  /** Seconds in a day. */
  const SecondsPerDay: int := 86400

  /** Seconds in an hour. */
  const SecondsPerHour: int := 3600

  /** The GPS epoch, 1980-01-06, in seconds after 1900-01-01. */
  const GpsEpoch: int := DaysSince1900(1980, 1, 6) * SecondsPerDay

  /** The GPS epoch is NTP time 2524953600. */
  lemma GpsEpochValue()
    ensures GpsEpoch == 2524953600
  {
  }

  /** The most whole hours time.ParseDuration accepts: 2^63 nanoseconds in whole hours. */
  const MaxDurationHours: int := 2562047

  /** The hours from the GPS epoch to the leap, week * 7 * 24 + day * 24, in Go's 64-bit unsigned arithmetic. */
  function LeapHours(m: TimeLs): (h: nat)
    ensures h < TwoTo64
  {
    (m.dateOfLsGpsWn * 7 * 24 + m.dateOfLsGpsDn * 24) % TwoTo64
  }

  /** The file is kept for ten years: 87660 hours. */
  const ExpirationHours: int := 87660

  /**
   * What HandleLeapIndication does: discard an indication that is not from
   * GPS, give up when the file cannot be read, leave the file alone when the
   * indication is not valid or agrees with the file, give up when the leap
   * date does not fit a time.Duration, and otherwise add the event.
   */
  datatype LeapAction =
    | NotFromGps
    | FileUnreadable
    | NoUpdate
    | HoursOverflow
    | AddEvent(leap: int, leapSec: int, expired: int, modified: int)

  /**
   * int(t.Sub(1900-01-01).Seconds()) for a time t whole seconds after 1900:
   * time.Sub saturates at the largest and smallest Duration, whose whole
   * seconds are +-MaxDurationSeconds.
   */
  function SecondsSince1900(t: int): (s: int)
    ensures -MaxDurationSeconds <= s <= MaxDurationSeconds
    ensures -MaxDurationSeconds <= t <= MaxDurationSeconds ==> s == t
  {
    if t > MaxDurationSeconds then MaxDurationSeconds
    else if t < -MaxDurationSeconds then -MaxDurationSeconds
    else t
  }

  /**
   * HandleLeapIndication for the last event on file and the current time, in
   * whole seconds after 1900-01-01; the event comes with the leap time, the
   * new count, the time ten years from now and now, converted to seconds as
   * AddLeapEvent converts them.
   */
  function HandleLeapIndication(m: TimeLs, onFile: LastLeap, now: int): LeapAction {
    if m.srcOfCurrLs != LeapSourceGps then NotFromGps
    else if !onFile.LastLeap? then FileUnreadable
    else if !(HasBit(m.valid, TimeToLsEventValidMask) && HasBit(m.valid, CurrLsValidMask)) then NoUpdate
    else
      var leapSec := m.currLs + GpsLeapToUtcLeap + m.lsChange;
      if leapSec == onFile.leapSec then NoUpdate
      else
        var hours := LeapHours(m);
        if hours > MaxDurationHours then HoursOverflow
        else
          AddEvent(SecondsSince1900(GpsEpoch + hours * SecondsPerHour), leapSec,
                   SecondsSince1900(now + ExpirationHours * SecondsPerHour), SecondsSince1900(now))
  }

  /**
   * The file is rewritten exactly for a valid GPS indication whose count,
   * GPS leap count plus 19 plus the announced change, differs from the file's.
   */
  lemma {:induction false} UpdateWhenCountDiffers(m: TimeLs, onFile: LastLeap, now: int)
    ensures var a := HandleLeapIndication(m, onFile, now);
            (a.AddEvent? || a.HoursOverflow?)
            <==> m.srcOfCurrLs == 2 && onFile.LastLeap? && m.valid % 4 == 3
                 && m.currLs + 19 + m.lsChange != onFile.leapSec
    ensures var a := HandleLeapIndication(m, onFile, now);
            a.AddEvent? ==> a.leapSec == m.currLs + 19 + m.lsChange && a.leapSec != onFile.leapSec
    ensures var a := HandleLeapIndication(m, onFile, now);
            (a.NotFromGps? <==> m.srcOfCurrLs != 2)
            && (a.FileUnreadable? <==> m.srcOfCurrLs == 2 && !onFile.LastLeap?)
            && (a.HoursOverflow? <==> (a.AddEvent? || a.HoursOverflow?) && LeapHours(m) > 2562047)
  {
    assert HasBit(m.valid, 1) && HasBit(m.valid, 2) <==> m.valid % 4 == 3 by {
      var q := m.valid / 4;
      assert m.valid == 4 * q + m.valid % 4;
      assert m.valid / 2 == 2 * q + (m.valid % 4) / 2 by {
        ModUnique(m.valid, 2, 2 * q + (m.valid % 4) / 2, m.valid % 2);
      }
    }
  }

  /**
   * The leap time falls at midnight, week * 7 + day days after the GPS epoch,
   * when those numbers fit the unsigned arithmetic and the time fits a
   * Duration; the file then expires ten years after now.
   */
  lemma {:induction false} LeapAtGpsMidnight(m: TimeLs, onFile: LastLeap, now: int)
    requires HandleLeapIndication(m, onFile, now).AddEvent?
    requires m.dateOfLsGpsWn * 7 * 24 + m.dateOfLsGpsDn * 24 < TwoTo64
    requires GpsEpoch + (m.dateOfLsGpsWn * 7 + m.dateOfLsGpsDn) * SecondsPerDay <= MaxDurationSeconds
    requires 0 <= now && now + 87660 * 3600 <= MaxDurationSeconds
    ensures var a := HandleLeapIndication(m, onFile, now);
            a.leap == GpsEpoch + (m.dateOfLsGpsWn * 7 + m.dateOfLsGpsDn) * SecondsPerDay
            && a.modified == now && a.expired == now + 87660 * 3600
  {
    var x := m.dateOfLsGpsWn * 7 * 24 + m.dateOfLsGpsDn * 24;
    assert x % TwoTo64 == x;
    assert x * SecondsPerHour == (m.dateOfLsGpsWn * 7 + m.dateOfLsGpsDn) * SecondsPerDay;
  }

  /**
   * The leap time written is the GPS epoch plus the announced hours, clamped
   * to the largest Duration since 1900 when it lies beyond it.
   */
  lemma {:induction false} LeapTimeClamped(m: TimeLs, onFile: LastLeap, now: int)
    requires HandleLeapIndication(m, onFile, now).AddEvent?
    ensures var t := GpsEpoch + LeapHours(m) * SecondsPerHour;
            var a := HandleLeapIndication(m, onFile, now);
            (t > MaxDurationSeconds ==> a.leap == MaxDurationSeconds)
            && (t <= MaxDurationSeconds ==> a.leap == t)
  {
    GpsEpochValue();
  }

  /**
   * Such a leap exists: one 1860671 hours (week 11075, day 4) after the GPS
   * epoch lies past the largest Duration and is written clamped.
   */
  lemma LeapTimeClampedExample()
    ensures var m := TimeLs(2, 3, 18, 1, 0, 11075, 4);
            HandleLeapIndication(m, LastLeap(0, 37), 0).AddEvent?
            && HandleLeapIndication(m, LastLeap(0, 37), 0).leap == MaxDurationSeconds
            && GpsEpoch + (11075 * 7 + 4) * SecondsPerDay > MaxDurationSeconds
  {
    GpsEpochValue();
  }

  /**
   * Once the event line is written, the last-event scan reads the new count
   * back from it, and the same indication then asks for no further update.
   */
  lemma {:induction false} UpdateSettles(m: TimeLs, onFile: LastLeap, now: int, later: int, date: string, otherForms: string -> Option<int>)
    requires HandleLeapIndication(m, onFile, now).AddEvent?
    requires -TwoTo63 <= m.currLs + 19 + m.lsChange < TwoTo63
    ensures var a := HandleLeapIndication(m, onFile, now);
            var line := NewEventLine(LeapUpdate(a.leap, a.leapSec, a.expired, a.modified, date));
            a.leap >= 0
            && DecodeLast(line, otherForms) == LastLeap(a.leap * NanosPerSecond, a.leapSec)
            && HandleLeapIndication(m, DecodeLast(line, otherForms), later) == NoUpdate
  {
    var a := HandleLeapIndication(m, onFile, now);
    GpsEpochValue();
    NewEventReadBack(LeapUpdate(a.leap, a.leapSec, a.expired, a.modified, date), otherForms);
  }
}
