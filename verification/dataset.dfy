/**
 * The parsers of the pmc management-dataset replies: PARENT_DATA_SET,
 * PORT_DATA_SET and the stepsRemoved field of CURRENT_DATA_SET. Each is a
 * bufio.Scanner loop over the lines of the reply that fills a record field by
 * field; each loop is a method proved equal to a fold of one-line steps, and
 * the properties of the parsers are lemmas about those folds.
 */
module Dataset {
  import opened Wrappers
  import opened GoStrings
  import opened GoStrconv

  /**
   * What a parser returns: its value with no error, its value so far together
   * with an error, or a run-time panic (an index out of range after Split).
   */
  datatype Outcome<T> = Complete(value: T) | Stopped(value: T) | Panicked

  /** A field value: text taken as it is, or a number. */
  datatype FieldValue = Text(text: string) | Number(n: int)

  /*
   * parseHexToInt
   */

  /**
   * parseHexToInt: base-16 big.Int parsing of the text between the first and
   * the second 'x', truncated to a 64-bit int; (0, error) when that text is not
   * hexadecimal, and a panic when the input has no 'x' at all.
   */
  function ParseHexToInt(input: string): (r: Outcome<Int64>)
    ensures r.Stopped? ==> r.value == 0
    ensures 'x' !in input ==> r == Panicked
  {
    var parts := Split(input, "x");
    assert 'x' !in input ==> |parts| == 1 by {
      if 'x' !in input {
        SplitNoSep(input, 'x');
      }
    }
    if |parts| < 2 then Panicked
    else match BigSetStringHex(parts[1])
      case None => Stopped(0)
      case Some(v) => Complete(BigInt64(v))
  }

  /** Only the text between the first 'x' and the next one (or the end) is read. */
  lemma {:induction false} HexBetweenX(p: string, h: string, rest: string)
    requires 'x' !in p && 'x' !in h
    requires rest == [] || rest[0] == 'x'
    ensures ParseHexToInt(p + "x" + h + rest)
         == match BigSetStringHex(h)
            case None => Stopped(0)
            case Some(v) => Complete(BigInt64(v))
  {
    HexPieces(p, h, rest);
  }

  /** Splitting at 'x' puts the text between the first two x's in piece 1. */
  lemma {:induction false} HexPieces(p: string, h: string, rest: string)
    requires 'x' !in p && 'x' !in h
    requires rest == [] || rest[0] == 'x'
    ensures var parts := Split(p + "x" + h + rest, "x");
            |parts| >= 2 && parts[1] == h
  {
    var s := p + "x" + h + rest;
    assert s == p + ['x'] + (h + rest);
    SplitAtChar(p, h + rest, 'x');
    if rest == [] {
      assert h + rest == h;
      SplitNoSep(h, 'x');
    } else {
      assert h + rest == h + ['x'] + rest[1..];
      SplitAtChar(h, rest[1..], 'x');
    }
  }

  /** The form the management replies use: "0x" and hexadecimal digits. */
  lemma {:induction false} HexPrefixed(h: string)
    requires 'x' !in h
    ensures ParseHexToInt("0x" + h)
         == match BigSetStringHex(h)
            case None => Stopped(0)
            case Some(v) => Complete(BigInt64(v))
  {
    HexBetweenX("0", h, "");
    assert "0" + "x" + h + "" == "0x" + h;
  }

  /** "0x" and unsigned hexadecimal digits of a value below 2^63 read as that value. */
  lemma {:induction false} HexDigits(h: string, v: nat)
    requires 'x' !in h && h != [] && h[0] != '+' && h[0] != '-'
    requires DigitsValue(h, 16, 0) == Some(v) && v < TwoTo63
    ensures ParseHexToInt("0x" + h) == Complete(v)
  {
    HexPrefixed(h);
  }

  /** The test inputs, as "0x" and their digits. */
  lemma HexText()
    ensures "0x" + "ffff" == "0xffff" && "0x" + "7fffffff" == "0x7fffffff"
    ensures "0x" + "fe" == "0xfe" && "0x" + "fg" == "0xfg"
  {
  }

  /** 0xffff reads as 65535, as the repository's tests expect. */
  lemma HexFFFF()
    ensures ParseHexToInt("0xffff") == Complete(65535)
  {
    assert DigitsValue("ffff", 16, 0) == Some(65535);
    HexDigits("ffff", 65535);
    HexText();
  }

  /** The digits 7fff are 2^15 - 1. */
  lemma HighDigits()
    ensures DigitsValue("7fff", 16, 0) == Some(0x7fff)
  {
  }

  /** Four more digits f after 2^15 - 1 make 2^31 - 1. */
  lemma LowDigits()
    ensures DigitsValue("ffff", 16, 0x7fff) == Some(0x7fffffff)
  {
  }

  /** The digits 7fffffff are 2^31 - 1. */
  lemma MaxInt32Digits()
    ensures DigitsValue("7fffffff", 16, 0) == Some(0x7fffffff)
  {
    assert "7fffffff" == "7fff" + "ffff";
    DigitsValueAppend("7fff", "ffff", 16, 0);
    HighDigits();
    LowDigits();
  }

  /** 0x7fffffff reads as 2147483647, as the repository's tests expect. */
  lemma HexMaxInt32()
    ensures ParseHexToInt("0x7fffffff") == Complete(2147483647)
  {
    var h := "7fffffff";
    MaxInt32Digits();
    MaxInt32Text();
    HexDigits(h, 2147483647);
    HexText();
  }

  /** The digits 7fffffff hold no 'x' and no sign. */
  lemma MaxInt32Text()
    ensures 'x' !in "7fffffff" && "7fffffff"[0] == '7'
  {
  }

  /** 0xfe reads as 254, as the repository's tests expect. */
  lemma HexFE()
    ensures ParseHexToInt("0xfe") == Complete(254)
  {
    assert DigitsValue("fe", 16, 0) == Some(254);
    HexDigits("fe", 254);
    HexText();
  }

  /** Text that is not hexadecimal is an error with the value 0. */
  lemma HexNotHex()
    ensures ParseHexToInt("0xfg") == Stopped(0)
  {
    HexPrefixed("fg");
    HexText();
  }
  /** A field value that a reply line gives: the value, a value Go rejects with an error, or a panic. */
  datatype Decoded = Decoded(v: FieldValue) | Rejected | Panic

  /** ParseInt(text, 0, bitSize) as a field value. */
  function DecodeInt(text: string, bitSize: nat): (d: Decoded)
    requires bitSize == 8 || bitSize == 16
    ensures d.Decoded? ==> d.v.Number? && -SignedLimit(bitSize) <= d.v.n < SignedLimit(bitSize)
    ensures !d.Panic?
  {
    match ParseInt(text, 0, bitSize)
    case Parsed(n) => Decoded(Number(n))
    case _ => Rejected
  }

  /*
   * PARENT_DATA_SET
   */

  /** The fields of the parent data set that a reply line can set. */
  datatype ParentField =
    | ParentPortIdentity | ParentStats | ObservedParentOffsetScaledLogVariance
    | ObservedParentClockPhaseChangeRate | GrandmasterPriority1 | GmClockClass
    | GmClockAccuracy | GmOffsetScaledLogVariance | GrandmasterPriority2 | GrandmasterIdentity
  {
    predicate IsText() {
      this == ParentPortIdentity || this == GrandmasterIdentity
    }
  }

  /** ParentDs: the parent data set as ParseParentDataSet fills it. */
  datatype ParentDs = ParentDs(
    parentPortIdentity: string,
    parentStats: int,
    observedParentOffsetScaledLogVariance: int,
    observedParentClockPhaseChangeRate: int,
    grandmasterPriority1: int,
    gmClockClass: int,
    gmClockAccuracy: int,
    gmOffsetScaledLogVariance: int,
    grandmasterPriority2: int,
    grandmasterIdentity: string)
  {
    /** The value of one field. */
    function Get(f: ParentField): (v: FieldValue)
      ensures v.Text? <==> f.IsText()
    {
      match f
      case ParentPortIdentity => Text(parentPortIdentity)
      case ParentStats => Number(parentStats)
      case ObservedParentOffsetScaledLogVariance => Number(observedParentOffsetScaledLogVariance)
      case ObservedParentClockPhaseChangeRate => Number(observedParentClockPhaseChangeRate)
      case GrandmasterPriority1 => Number(grandmasterPriority1)
      case GmClockClass => Number(gmClockClass)
      case GmClockAccuracy => Number(gmClockAccuracy)
      case GmOffsetScaledLogVariance => Number(gmOffsetScaledLogVariance)
      case GrandmasterPriority2 => Number(grandmasterPriority2)
      case GrandmasterIdentity => Text(grandmasterIdentity)
    }

    /** The record with one field assigned. */
    function Set(f: ParentField, v: FieldValue): (r: ParentDs)
      requires v.Text? <==> f.IsText()
      ensures r.Get(f) == v
      ensures forall g :: g != f ==> r.Get(g) == Get(g)
    {
      match f
      case ParentPortIdentity => this.(parentPortIdentity := v.text)
      case ParentStats => this.(parentStats := v.n)
      case ObservedParentOffsetScaledLogVariance => this.(observedParentOffsetScaledLogVariance := v.n)
      case ObservedParentClockPhaseChangeRate => this.(observedParentClockPhaseChangeRate := v.n)
      case GrandmasterPriority1 => this.(grandmasterPriority1 := v.n)
      case GmClockClass => this.(gmClockClass := v.n)
      case GmClockAccuracy => this.(gmClockAccuracy := v.n)
      case GmOffsetScaledLogVariance => this.(gmOffsetScaledLogVariance := v.n)
      case GrandmasterPriority2 => this.(grandmasterPriority2 := v.n)
      case GrandmasterIdentity => this.(grandmasterIdentity := v.text)
    }
  }

  /** The zero value of ParentDs. */
  const EmptyParent := ParentDs("", 0, 0, 0, 0, 0, 0, 0, 0, "")

  /** The key each field is listed under in the reply. */
  function ParentKey(key: string): (f: Option<ParentField>) {
    match key
    case "parentPortIdentity" => Some(ParentPortIdentity)
    case "parentStats" => Some(ParentStats)
    case "observedParentOffsetScaledLogVariance" => Some(ObservedParentOffsetScaledLogVariance)
    case "observedParentClockPhaseChangeRate" => Some(ObservedParentClockPhaseChangeRate)
    case "grandmasterPriority1" => Some(GrandmasterPriority1)
    case "gm.ClockClass" => Some(GmClockClass)
    case "gm.ClockAccuracy" => Some(GmClockAccuracy)
    case "gm.OffsetScaledLogVariance" => Some(GmOffsetScaledLogVariance)
    case "grandmasterPriority2" => Some(GrandmasterPriority2)
    case "grandmasterIdentity" => Some(GrandmasterIdentity)
    case _ => None
  }

  /**
   * How a value is read: the identities as text, parentStats with ParseInt in
   * 8 bits, the priorities and the clock class in 16 bits, and the variances,
   * the change rate and the accuracy with parseHexToInt.
   */
  function DecodeParent(f: ParentField, text: string): (d: Decoded)
    ensures d.Decoded? ==> (d.v.Text? <==> f.IsText())
  {
    match f
    case ParentPortIdentity => Decoded(Text(text))
    case GrandmasterIdentity => Decoded(Text(text))
    case ParentStats => DecodeInt(text, 8)
    case GrandmasterPriority1 => DecodeInt(text, 16)
    case GmClockClass => DecodeInt(text, 16)
    case GrandmasterPriority2 => DecodeInt(text, 16)
    case _ =>
      match ParseHexToInt(text)
      case Complete(n) => Decoded(Number(n))
      case Stopped(_) => Rejected
      case Panicked => Panic
  }

  /**
   * One line of the rewritten reply: a line that is not exactly two '='-separated
   * parts, or whose key names no field, changes nothing; otherwise the field
   * takes the value, and a value that does not parse stops the scan.
   */
  function ParentLine(pds: ParentDs, line: string): Outcome<ParentDs> {
    var kv := Split(line, "=");
    if |kv| != 2 then Complete(pds)
    else match ParentKey(kv[0])
      case None => Complete(pds)
      case Some(f) =>
        match DecodeParent(f, kv[1])
        case Decoded(v) => Complete(pds.Set(f, v))
        case Rejected => Stopped(pds)
        case Panic => Panicked
  }

  /** The scanner loop: the lines in order, until one stops it. */
  function ParentLines(pds: ParentDs, lines: seq<string>): Outcome<ParentDs>
    decreases |lines|
  {
    if lines == [] then Complete(pds)
    else match ParentLine(pds, lines[0])
      case Complete(next) => ParentLines(next, lines[1..])
      case other => other
  }

  /** Every run of blanks becomes '=', and an '=' that then starts a line is dropped. */
  function ParentText(resp: string): string {
    ReplaceAll(ReplaceBlankRuns(resp, "="), "\n=", "\n")
  }

  /** What ParseParentDataSet returns: the text between the second PARENT_DATA_SET and a third one (or the end), split into lines and scanned into the zero record. */
  function ParentDataSet(data: string): Outcome<ParentDs> {
    var parts := Split(data, "PARENT_DATA_SET");
    if |parts| < 3 then Panicked
    else ParentLines(EmptyParent, ScanLines(ParentText(parts[2])))
  }

  /** ParseParentDataSet: the scanner loop over the rewritten reply, filling the record field by field. */
  method ParseParentDataSet(data: string) returns (r: Outcome<ParentDs>)
    ensures r == ParentDataSet(data)
  {
    var parts := Split(data, "PARENT_DATA_SET");
    if |parts| < 3 {
      return Panicked;
    }
    var resp := ReplaceAll(ReplaceBlankRuns(parts[2], "="), "\n=", "\n");
    var lines := ScanLines(resp);
    var pds := EmptyParent;
    var i := 0;
    while i < |lines|
      invariant 0 <= i <= |lines|
      invariant ParentLines(pds, lines[i..]) == ParentDataSet(data)
    {
      assert lines[i..][0] == lines[i] && lines[i..][1..] == lines[i + 1..];
      var kv := Split(lines[i], "=");
      i := i + 1;
      if |kv| != 2 {
        continue;
      }
      match ParentKey(kv[0])
      case None =>
      case Some(f) =>
        var d := DecodeParent(f, kv[1]);
        if d.Rejected? {
          return Stopped(pds);
        } else if d.Panic? {
          return Panicked;
        }
        pds := pds.Set(f, d.v);
    }
    assert lines[i..] == [];
    return Complete(pds);
  }

  /** The scan of two blocks of lines: the second continues from the record the first completed. */
  lemma {:induction false} ParentLinesAppend(pds: ParentDs, a: seq<string>, b: seq<string>)
    ensures ParentLines(pds, a + b)
         == match ParentLines(pds, a)
            case Complete(q) => ParentLines(q, b)
            case other => other
    decreases |a|
  {
    if a == [] {
      assert a + b == b;
    } else {
      assert (a + b)[0] == a[0] && (a + b)[1..] == a[1..] + b;
      match ParentLine(pds, a[0])
      case Complete(next) =>
        ParentLinesAppend(next, a[1..], b);
      case _ =>
    }
  }

  /** The line names field f: it splits into two parts at '=' and the first is f's key. */
  predicate SetsParent(line: string, f: ParentField) {
    var kv := Split(line, "=");
    |kv| == 2 && ParentKey(kv[0]) == Some(f)
  }

  /** A field that no line names keeps its value, whether the scan completes or stops on an error. */
  lemma {:induction false} ParentUntouched(pds: ParentDs, lines: seq<string>, f: ParentField)
    requires forall k :: 0 <= k < |lines| ==> !SetsParent(lines[k], f)
    requires !ParentLines(pds, lines).Panicked?
    ensures ParentLines(pds, lines).value.Get(f) == pds.Get(f)
    decreases |lines|
  {
    if lines != [] {
      assert !SetsParent(lines[0], f);
      match ParentLine(pds, lines[0])
      case Complete(next) =>
        assert forall k :: 0 <= k < |lines[1..]| ==> lines[1..][k] == lines[k + 1];
        ParentUntouched(next, lines[1..], f);
      case _ =>
    }
  }

  /** A repeated key takes its last value: the field holds what the last line naming it gives. */
  lemma {:induction false} ParentLastValueWins(pds: ParentDs, lines: seq<string>, i: nat, f: ParentField, v: FieldValue)
    requires i < |lines| && SetsParent(lines[i], f)
    requires DecodeParent(f, Split(lines[i], "=")[1]) == Decoded(v)
    requires forall k :: i < k < |lines| ==> !SetsParent(lines[k], f)
    requires ParentLines(pds, lines).Complete?
    ensures ParentLines(pds, lines).value.Get(f) == v
  {
    var pre, post := lines[..i], lines[i + 1..];
    SliceAround(lines, i);
    ParentLinesAppend(pds, pre, [lines[i]] + post);
    var q := ParentLines(pds, pre).value;
    assert ([lines[i]] + post)[0] == lines[i] && ([lines[i]] + post)[1..] == post;
    assert ParentLine(q, lines[i]) == Complete(q.Set(f, v));
    assert forall k :: 0 <= k < |post| ==> post[k] == lines[i + 1 + k];
    ParentUntouched(q.Set(f, v), post, f);
  }

  /** A value that does not parse returns the record as the lines before it left it. */
  lemma {:induction false} ParentStopsWithPrefix(pds: ParentDs, lines: seq<string>) returns (k: nat)
    requires ParentLines(pds, lines).Stopped?
    ensures k < |lines|
    ensures ParentLines(pds, lines[..k]) == Complete(ParentLines(pds, lines).value)
    ensures ParentLine(ParentLines(pds, lines).value, lines[k]) == Stopped(ParentLines(pds, lines).value)
    decreases |lines|
  {
    match ParentLine(pds, lines[0])
    case Complete(next) =>
      var j := ParentStopsWithPrefix(next, lines[1..]);
      k := j + 1;
      assert lines[..k][0] == lines[0] && lines[..k][1..] == lines[1..][..j];
    case Stopped(_) =>
      k := 0;
      assert lines[..0] == [];
  }

  /** The values a field can hold: 8 bits for parentStats, 16 bits for the priorities and the class, 64 bits for the hexadecimal fields. */
  predicate FitsParent(f: ParentField, v: FieldValue) {
    if f.IsText() then v.Text?
    else
      v.Number? &&
      match f
      case ParentStats => -0x80 <= v.n < 0x80
      case GrandmasterPriority1 => -0x8000 <= v.n < 0x8000
      case GmClockClass => -0x8000 <= v.n < 0x8000
      case GrandmasterPriority2 => -0x8000 <= v.n < 0x8000
      case _ => -TwoTo63 <= v.n < TwoTo63
  }

  /** Every field of the record holds a value its parser can give. */
  predicate ParentInRange(p: ParentDs) {
    forall f :: FitsParent(f, p.Get(f))
  }

  /** A value the reply gives for a field always fits that field. */
  lemma {:induction false} DecodeParentFits(f: ParentField, text: string)
    ensures DecodeParent(f, text).Decoded? ==> FitsParent(f, DecodeParent(f, text).v)
  {
  }

  /** The scan keeps every field within the range its parser gives, also when it stops on an error. */
  lemma {:induction false} ParentLinesInRange(pds: ParentDs, lines: seq<string>)
    requires ParentInRange(pds) && !ParentLines(pds, lines).Panicked?
    ensures ParentInRange(ParentLines(pds, lines).value)
    decreases |lines|
  {
    if lines != [] {
      match ParentLine(pds, lines[0])
      case Complete(next) =>
        var kv := Split(lines[0], "=");
        if |kv| == 2 && ParentKey(kv[0]).Some? {
          var f := ParentKey(kv[0]).value;
          DecodeParentFits(f, kv[1]);
          forall g
            ensures FitsParent(g, next.Get(g))
          {
            if g != f {
              assert FitsParent(g, pds.Get(g));
            }
          }
        }
        ParentLinesInRange(next, lines[1..]);
      case _ =>
    }
  }

  /** ParseParentDataSet returns a record whose fields fit their parsers, with or without an error. */
  lemma {:induction false} ParentDataSetInRange(data: string)
    requires !ParentDataSet(data).Panicked?
    ensures ParentInRange(ParentDataSet(data).value)
  {
    var parts := Split(data, "PARENT_DATA_SET");
    forall f
      ensures FitsParent(f, EmptyParent.Get(f))
    {
    }
    ParentLinesInRange(EmptyParent, ScanLines(ParentText(parts[2])));
  }

  /** Splitting "key=value" at '=' gives the key and the value. */
  lemma {:induction false} KeyValueSplit(key: string, value: string)
    requires '=' !in key && '=' !in value
    ensures Split(key + "=" + value, "=") == [key, value]
  {
    SplitAtChar(key, value, '=');
    SplitNoSep(value, '=');
  }

  /** A "key=value" line sets the field the key names to the value the field's parser reads. */
  lemma {:induction false} ParentKeyValueLine(pds: ParentDs, key: string, value: string, f: ParentField, v: FieldValue)
    requires '=' !in key && '=' !in value
    requires ParentKey(key) == Some(f) && DecodeParent(f, value) == Decoded(v)
    ensures ParentLine(pds, key + "=" + value) == Complete(pds.Set(f, v))
  {
    KeyValueSplit(key, value);
  }

  /** Text made of blanks only. */
  predicate Blanks(s: string) {
    forall c :: c in s ==> IsBlank(c)
  }

  /** Text with no blank and no line break. */
  predicate Word(s: string) {
    forall c :: c in s ==> !IsBlank(c) && c != '\n'
  }

  /** The blank runs of a reply line "\t<key> <value>" become '='. */
  lemma {:induction false} BlankRunsOfLine(b1: string, key: string, b2: string, value: string)
    requires b1 != [] && b2 != [] && Blanks(b1) && Blanks(b2)
    requires key != [] && Word(key) && Word(value)
    ensures ReplaceBlankRuns("\n" + b1 + key + b2 + value, "=") == "\n" + "=" + key + "=" + value
  {
    var t3 := b1 + (key + (b2 + value));
    assert ReplaceBlankRuns(t3, "=") == "=" + (key + ("=" + value)) by {
      BlankRunsField(b1, key, b2, value);
      Nest4(b1, key, b2, value);
    }
    assert ReplaceBlankRuns("\n" + t3, "=") == "\n" + ("=" + (key + ("=" + value))) by {
      ReplaceBlankRunsWord("\n", t3, "=");
    }
    Nest5("\n", b1, key, b2, value);
    Nest5("\n", "=", key, "=", value);
  }

  /** Blank runs before the key and between the key and the value each become one '='. */
  lemma {:induction false} BlankRunsField(b1: string, key: string, b2: string, value: string)
    requires b1 != [] && b2 != [] && Blanks(b1) && Blanks(b2)
    requires key != [] && Word(key) && Word(value)
    ensures ReplaceBlankRuns(b1 + key + b2 + value, "=") == "=" + (key + ("=" + value))
  {
    var t1 := b2 + value;
    var t2 := key + t1;
    assert ReplaceBlankRuns(t1, "=") == "=" + value by {
      BlankRunValue(b2, value);
    }
    assert ReplaceBlankRuns(t2, "=") == key + ("=" + value) by {
      ReplaceBlankRunsWord(key, t1, "=");
    }
    assert ReplaceBlankRuns(b1 + t2, "=") == "=" + (key + ("=" + value)) by {
      assert key[0] in key;
      assert t2[0] == key[0];
      ReplaceBlankRunsLead(b1, t2, "=");
    }
    Nest4(b1, key, b2, value);
  }

  /** Concatenation regrouped. */
  lemma {:induction false} Nest4(a: string, b: string, c: string, d: string)
    ensures a + b + c + d == a + (b + (c + d))
  {
  }

  /** Concatenation regrouped. */
  lemma {:induction false} Nest5(a: string, b: string, c: string, d: string, e: string)
    ensures a + b + c + d + e == a + (b + (c + (d + e)))
  {
  }

  /** "\n=" is a line break and an '='. */
  lemma NewlineEquals()
    ensures "\n" + "=" == "\n="
  {
  }

  /** An '=' right after a line break is dropped. */
  lemma {:induction false} LeadingEqualsDropped(w: string)
    requires '\n' !in w
    ensures ReplaceAll("\n" + "=" + w, "\n=", "\n") == "\n" + w
  {
    NewlineEquals();
    SplitLeadingSep(w, "\n=");
    SplitFree(w, "\n=");
    assert Join(["", w], "\n") == "\n" + w;
  }

  /** A reply line "\t<key> <value>" (blank runs of any length) reads as "<key>=<value>". */
  lemma {:induction false} ParentTextLine(b1: string, key: string, b2: string, value: string)
    requires b1 != [] && b2 != [] && Blanks(b1) && Blanks(b2)
    requires key != [] && Word(key) && Word(value)
    ensures ParentText("\n" + b1 + key + b2 + value) == "\n" + (key + "=" + value)
  {
    BlankRunsOfLine(b1, key, b2, value);
    var w := key + "=" + value;
    assert "\n" + "=" + key + "=" + value == "\n" + "=" + w;
    assert forall c :: c in w ==> c in key || c == '=' || c in value;
    LeadingEqualsDropped(w);
  }

  /*
   * PORT_DATA_SET
   */

  /** The fields of the port data set that a reply line can set. */
  datatype PortField =
    | PortIdentity | PortState | LogMinDelayReqInterval | PeerMeanPathDelay
    | LogAnnounceInterval | AnnounceReceiptTimeout | LogSyncInterval | DelayMechanism
    | LogMinPdelayReqInterval | VersionNumber
  {
    predicate IsText() {
      this == PortIdentity || this == PortState
    }
  }

  /** PortDs: one port of the port data set. */
  datatype PortDs = PortDs(
    portIdentity: string,
    portState: string,
    logMinDelayReqInterval: int,
    peerMeanPathDelay: int,
    logAnnounceInterval: int,
    announceReceiptTimeout: int,
    logSyncInterval: int,
    delayMechanism: int,
    logMinPdelayReqInterval: int,
    versionNumber: int)
  {
    /** The value of one field. */
    function Get(f: PortField): (v: FieldValue)
      ensures v.Text? <==> f.IsText()
    {
      match f
      case PortIdentity => Text(portIdentity)
      case PortState => Text(portState)
      case LogMinDelayReqInterval => Number(logMinDelayReqInterval)
      case PeerMeanPathDelay => Number(peerMeanPathDelay)
      case LogAnnounceInterval => Number(logAnnounceInterval)
      case AnnounceReceiptTimeout => Number(announceReceiptTimeout)
      case LogSyncInterval => Number(logSyncInterval)
      case DelayMechanism => Number(delayMechanism)
      case LogMinPdelayReqInterval => Number(logMinPdelayReqInterval)
      case VersionNumber => Number(versionNumber)
    }

    /** The record with one field assigned. */
    function Set(f: PortField, v: FieldValue): (r: PortDs)
      requires v.Text? <==> f.IsText()
      ensures r.Get(f) == v
      ensures forall g :: g != f ==> r.Get(g) == Get(g)
    {
      match f
      case PortIdentity => this.(portIdentity := v.text)
      case PortState => this.(portState := v.text)
      case LogMinDelayReqInterval => this.(logMinDelayReqInterval := v.n)
      case PeerMeanPathDelay => this.(peerMeanPathDelay := v.n)
      case LogAnnounceInterval => this.(logAnnounceInterval := v.n)
      case AnnounceReceiptTimeout => this.(announceReceiptTimeout := v.n)
      case LogSyncInterval => this.(logSyncInterval := v.n)
      case DelayMechanism => this.(delayMechanism := v.n)
      case LogMinPdelayReqInterval => this.(logMinPdelayReqInterval := v.n)
      case VersionNumber => this.(versionNumber := v.n)
    }
  }

  /** The zero value of PortDs. */
  const EmptyPort := PortDs("", "", 0, 0, 0, 0, 0, 0, 0, 0)

  /** The key each field is listed under in the reply. */
  function PortKey(key: string): (f: Option<PortField>) {
    match key
    case "portIdentity" => Some(PortIdentity)
    case "portState" => Some(PortState)
    case "logMinDelayReqInterval" => Some(LogMinDelayReqInterval)
    case "peerMeanPathDelay" => Some(PeerMeanPathDelay)
    case "logAnnounceInterval" => Some(LogAnnounceInterval)
    case "announceReceiptTimeout" => Some(AnnounceReceiptTimeout)
    case "logSyncInterval" => Some(LogSyncInterval)
    case "delayMechanism" => Some(DelayMechanism)
    case "logMinPdelayReqInterval" => Some(LogMinPdelayReqInterval)
    case "versionNumber" => Some(VersionNumber)
    case _ => None
  }

  /** How a value is read: the identity and the state as text, every other field with ParseInt in 16 bits. */
  function DecodePort(f: PortField, text: string): (d: Decoded)
    ensures !d.Panic?
    ensures d.Decoded? ==> (d.v.Text? <==> f.IsText())
    ensures d.Decoded? && d.v.Number? ==> -0x8000 <= d.v.n < 0x8000
  {
    if f.IsText() then Decoded(Text(text)) else DecodeInt(text, 16)
  }

  /** The header line that starts a port's block of the reply. */
  const PortHeader: string := "RESPONSE MANAGEMENT PORT_DATA_SET"

  /** The loop variables of ParsePortDataSet: the ports completed, the one being filled, and whether a header has been seen. */
  datatype PortScan = PortScan(ports: seq<PortDs>, port: PortDs, portAppend: bool)

  /** Before the first line. */
  const PortStart := PortScan([], EmptyPort, false)

  /** The field a line sets: after every blank run becomes '=', the line splits into exactly three parts, the key second and the value third. */
  function PortFieldLine(line: string): Option<(PortField, string)> {
    var kv := Split(ReplaceBlankRuns(line, "="), "=");
    if |kv| != 3 then None
    else match PortKey(kv[1])
      case None => None
      case Some(f) => Some((f, kv[2]))
  }

  /**
   * One line: a header closes the record being filled (unless it is the first
   * header) and starts a fresh one; a field line sets its field; a value that
   * does not parse stops the scan (None).
   */
  function PortLine(st: PortScan, line: string): Option<PortScan> {
    if Contains(line, PortHeader) then
      if !st.portAppend then Some(PortScan(st.ports, EmptyPort, true))
      else Some(PortScan(st.ports + [st.port], EmptyPort, true))
    else match PortFieldLine(line)
      case None => Some(st)
      case Some((f, text)) =>
        match DecodePort(f, text)
        case Decoded(v) => Some(st.(port := st.port.Set(f, v)))
        case _ => None
  }

  /** The scanner loop: the completed ports and the last one at the end, or only the completed ports on an error. */
  function PortLines(st: PortScan, lines: seq<string>): Outcome<seq<PortDs>>
    decreases |lines|
  {
    if lines == [] then Complete(st.ports + [st.port])
    else match PortLine(st, lines[0])
      case None => Stopped(st.ports)
      case Some(next) => PortLines(next, lines[1..])
  }

  /** What ParsePortDataSet returns: the lines after the first "GET PORT_DATA_SET" line, scanned from no ports. */
  function PortDataSet(data: string): Outcome<seq<PortDs>> {
    var parts := Split(data, "GET PORT_DATA_SET\n");
    if |parts| < 2 then Panicked
    else PortLines(PortStart, ScanLines(parts[1]))
  }

  /** ParsePortDataSet: the scanner loop that collects one record per header. */
  method ParsePortDataSet(data: string) returns (r: Outcome<seq<PortDs>>)
    ensures r == PortDataSet(data)
  {
    var parts := Split(data, "GET PORT_DATA_SET\n");
    if |parts| < 2 {
      return Panicked;
    }
    var lines := ScanLines(parts[1]);
    var ports: seq<PortDs> := [];
    var portAppend := false;
    var port := EmptyPort;
    var i := 0;
    while i < |lines|
      invariant 0 <= i <= |lines|
      invariant PortLines(PortScan(ports, port, portAppend), lines[i..]) == PortDataSet(data)
    {
      assert lines[i..][0] == lines[i] && lines[i..][1..] == lines[i + 1..];
      var line := lines[i];
      i := i + 1;
      if Contains(line, PortHeader) {
        if !portAppend {
          port := EmptyPort;
          portAppend := true;
        } else {
          ports := ports + [port];
          port := EmptyPort;
        }
        continue;
      }
      var kv := Split(ReplaceBlankRuns(line, "="), "=");
      if |kv| != 3 {
        continue;
      }
      match PortKey(kv[1])
      case None =>
      case Some(f) =>
        var d := DecodePort(f, kv[2]);
        if !d.Decoded? {
          return Stopped(ports);
        }
        port := port.Set(f, d.v);
    }
    assert lines[i..] == [];
    ports := ports + [port];
    return Complete(ports);
  }

  /** The number of header lines. */
  function HeaderCount(lines: seq<string>): (n: nat)
    ensures n <= |lines|
    decreases |lines|
  {
    if lines == [] then 0
    else (if Contains(lines[0], PortHeader) then 1 else 0) + HeaderCount(lines[1..])
  }

  /** How many ports a completed scan from st returns: one per header, the first header not closing a record when none was seen yet. */
  function ExpectedPorts(st: PortScan, lines: seq<string>): nat {
    var h := HeaderCount(lines);
    |st.ports| + 1 + h - (if !st.portAppend && h > 0 then 1 else 0)
  }

  /** A completed scan returns one port per header (and one at least); a stopped scan drops the port being filled. */
  lemma {:induction false} PortCount(st: PortScan, lines: seq<string>)
    ensures PortLines(st, lines).Complete? ==> |PortLines(st, lines).value| == ExpectedPorts(st, lines)
    ensures PortLines(st, lines).Stopped? ==> |PortLines(st, lines).value| < ExpectedPorts(st, lines)
    decreases |lines|
  {
    if lines != [] {
      match PortLine(st, lines[0])
      case None =>
      case Some(next) =>
        PortCount(next, lines[1..]);
        assert ExpectedPorts(next, lines[1..]) == ExpectedPorts(st, lines);
    }
  }

  /** ParsePortDataSet returns max(1, headers) ports, and fewer when a value does not parse. */
  lemma {:induction false} PortDataSetCount(data: string)
    requires !PortDataSet(data).Panicked?
    ensures var h := HeaderCount(ScanLines(Split(data, "GET PORT_DATA_SET\n")[1]));
            var n := if h == 0 then 1 else h;
            (PortDataSet(data).Complete? ==> |PortDataSet(data).value| == n)
            && (PortDataSet(data).Stopped? ==> |PortDataSet(data).value| < n)
  {
    PortCount(PortStart, ScanLines(Split(data, "GET PORT_DATA_SET\n")[1]));
  }

  /** The fields that a block of lines without a header sets on a port, or None when a value does not parse. */
  function PortBody(port: PortDs, lines: seq<string>): Option<PortDs>
    decreases |lines|
  {
    if lines == [] then Some(port)
    else match PortFieldLine(lines[0])
      case None => PortBody(port, lines[1..])
      case Some((f, text)) =>
        match DecodePort(f, text)
        case Decoded(v) => PortBody(port.Set(f, v), lines[1..])
        case _ => None
  }

  /** No line of the block is a header. */
  predicate NoHeader(lines: seq<string>) {
    forall k :: 0 <= k < |lines| ==> !Contains(lines[k], PortHeader)
  }

  /** Lines without a header only fill the port in progress. */
  lemma {:induction false} PortBodyLines(st: PortScan, body: seq<string>, rest: seq<string>)
    requires NoHeader(body)
    ensures PortLines(st, body + rest)
         == match PortBody(st.port, body)
            case None => Stopped(st.ports)
            case Some(p) => PortLines(st.(port := p), rest)
    decreases |body|
  {
    if body == [] {
      assert body + rest == rest;
    } else {
      assert (body + rest)[0] == body[0] && (body + rest)[1..] == body[1..] + rest;
      assert !Contains(body[0], PortHeader);
      assert NoHeader(body[1..]) by {
        assert forall k :: 0 <= k < |body[1..]| ==> body[1..][k] == body[k + 1];
      }
      match PortLine(st, body[0])
      case None =>
      case Some(next) =>
        PortBodyLines(next, body[1..], rest);
    }
  }

  /** A header closes the port in progress (after the first header) and starts a fresh one. */
  lemma {:induction false} HeaderStartsPort(st: PortScan, h: string, rest: seq<string>)
    requires Contains(h, PortHeader)
    ensures PortLines(st, [h] + rest)
         == PortLines(PortScan(st.ports + (if st.portAppend then [st.port] else []), EmptyPort, true), rest)
  {
    assert ([h] + rest)[0] == h && ([h] + rest)[1..] == rest;
    if !st.portAppend {
      assert st.ports + [] == st.ports;
    }
  }

  /** Two header blocks give two ports in reply order, each filled only by the lines of its own block. */
  lemma {:induction false} TwoPorts(h1: string, b1: seq<string>, h2: string, b2: seq<string>, p1: PortDs, p2: PortDs)
    requires Contains(h1, PortHeader) && Contains(h2, PortHeader) && NoHeader(b1) && NoHeader(b2)
    requires PortBody(EmptyPort, b1) == Some(p1) && PortBody(EmptyPort, b2) == Some(p2)
    ensures PortLines(PortStart, [h1] + b1 + [h2] + b2) == Complete([p1, p2])
  {
    var second := [h2] + b2;
    assert [h1] + b1 + [h2] + b2 == [h1] + (b1 + second);
    var none: seq<PortDs> := [];
    var s1 := PortScan(none, EmptyPort, true);
    assert PortLines(PortStart, [h1] + (b1 + second)) == PortLines(s1, b1 + second) by {
      HeaderStartsPort(PortStart, h1, b1 + second);
      assert none + [] == none;
    }
    assert PortLines(s1, b1 + second) == PortLines(s1.(port := p1), second) by {
      PortBodyLines(s1, b1, second);
    }
    var s2 := PortScan([p1], EmptyPort, true);
    assert PortLines(s1.(port := p1), second) == PortLines(s2, b2) by {
      HeaderStartsPort(s1.(port := p1), h2, b2);
      assert none + [p1] == [p1];
    }
    assert PortLines(s2, b2) == PortLines(s2.(port := p2), []) by {
      assert b2 + [] == b2;
      PortBodyLines(s2, b2, []);
    }
    assert [p1] + [p2] == [p1, p2];
  }

  /** An indented line "\t<key> <value>" is a field line: three parts, the key second. */
  lemma {:induction false} IndentedFieldLine(b1: string, key: string, b2: string, value: string)
    requires b1 != [] && b2 != [] && Blanks(b1) && Blanks(b2)
    requires key != [] && Word(key) && Word(value) && '=' !in key && '=' !in value
    ensures Split(ReplaceBlankRuns(b1 + key + b2 + value, "="), "=") == ["", key, value]
  {
    BlankRunsField(b1, key, b2, value);
    EqualsFields(key, value);
  }

  /** "=<key>=<value>" splits on '=' into the empty string, the key and the value. */
  lemma {:induction false} EqualsFields(key: string, value: string)
    requires '=' !in key && '=' !in value
    ensures Split("=" + (key + ("=" + value)), "=") == ["", key, value]
  {
    SeparatedFields(key, value, '=');
  }

  /** The same for any separator character c. */
  lemma {:induction false} SeparatedFields(key: string, value: string, c: char)
    requires c !in key && c !in value
    ensures Split([c] + (key + ([c] + value)), [c]) == [[], key, value]
  {
    var tail := key + ([c] + value);
    SeparatedPair(key, value, c);
    SplitAtChar([], tail, c);
    assert [] + [c] + tail == [c] + tail;
  }

  /** Two pieces without the separator character, joined by it, split back into the two. */
  lemma {:induction false} SeparatedPair(key: string, value: string, c: char)
    requires c !in key && c !in value
    ensures Split(key + ([c] + value), [c]) == [key, value]
  {
    SplitAtChar(key, value, c);
    assert key + [c] + value == key + ([c] + value);
    SplitNoSep(value, c);
  }

  /** An indented line naming a port field sets that field to the value. */
  lemma {:induction false} PortIndentedLine(st: PortScan, b1: string, key: string, b2: string, value: string, f: PortField, v: FieldValue)
    requires b1 != [] && b2 != [] && Blanks(b1) && Blanks(b2)
    requires key != [] && Word(key) && Word(value) && '=' !in key && '=' !in value
    requires !Contains(b1 + key + b2 + value, PortHeader)
    requires PortKey(key) == Some(f) && DecodePort(f, value) == Decoded(v)
    ensures PortLine(st, b1 + key + b2 + value) == Some(st.(port := st.port.Set(f, v)))
  {
    IndentedFieldLine(b1, key, b2, value);
  }

  /** A line that starts with its key, without indentation, splits into two parts only and sets nothing. */
  lemma {:induction false} PortUnindentedIgnored(st: PortScan, key: string, b: string, value: string)
    requires b != [] && Blanks(b) && key != [] && Word(key) && Word(value)
    requires '=' !in key && '=' !in value
    requires !Contains(key + b + value, PortHeader)
    ensures PortLine(st, key + b + value) == Some(st)
  {
    UnindentedTwoParts(key, b, value);
  }

  /** Without indentation, a key, a blank run and a value split into two parts. */
  lemma {:induction false} UnindentedTwoParts(key: string, b: string, value: string)
    requires b != [] && Blanks(b) && key != [] && Word(key) && Word(value)
    requires '=' !in key && '=' !in value
    ensures |Split(ReplaceBlankRuns(key + b + value, "="), "=")| == 2
  {
    BlankRunsKeyValue(key, b, value);
    KeyValueSplit(key, value);
  }

  /** The blank run between a key and its value becomes one '='. */
  lemma {:induction false} BlankRunsKeyValue(key: string, b: string, value: string)
    requires b != [] && Blanks(b) && Word(key) && Word(value)
    ensures ReplaceBlankRuns(key + b + value, "=") == key + "=" + value
  {
    calc {
      ReplaceBlankRuns(key + b + value, "=");
    == { assert key + b + value == key + (b + value); }
      ReplaceBlankRuns(key + (b + value), "=");
    == { ReplaceBlankRunsWord(key, b + value, "="); }
      key + ReplaceBlankRuns(b + value, "=");
    == { BlankRunValue(b, value); }
      key + ("=" + value);
    == { Nest3(key, "=", value); }
      key + "=" + value;
    }
  }

  /** A blank run before a word becomes one '='. */
  lemma {:induction false} BlankRunValue(b: string, value: string)
    requires b != [] && Blanks(b) && Word(value)
    ensures ReplaceBlankRuns(b + value, "=") == "=" + value
  {
    if value != [] {
      assert value[0] in value;
    }
    ReplaceBlankRunsLead(b, value, "=");
  }

  /** Concatenation regrouped. */
  lemma {:induction false} Nest3(a: string, b: string, c: string)
    ensures a + b + c == a + (b + c)
  {
  }

  /*
   * CURRENT_DATA_SET
   */

  /** CurrentDs: the current data set; the two time values are floats in the source. */
  datatype CurrentDs = CurrentDs(stepsRemoved: int, offsetFromMaster: real, meanPathDelay: real)

  /** The zero value of CurrentDs. */
  const EmptyCurrent := CurrentDs(0, 0.0, 0.0)

  /** ParseFloat of the standard library is a parameter: None stands for its error. */
  type FloatParser = string -> Option<real>

  /**
   * One line: a line naming the data set is skipped; a field line sets
   * stepsRemoved (ParseInt in 16 bits), offsetFromMaster or meanPathDelay
   * (the float parser); a value that does not parse stops the scan (None).
   */
  function CurrentLine(cur: CurrentDs, line: string, parseFloat: FloatParser): Option<CurrentDs> {
    if Contains(line, "CURRENT_DATA_SET") then Some(cur)
    else
      var kv := Split(ReplaceBlankRuns(line, "="), "=");
      if |kv| != 3 then Some(cur)
      else match kv[1]
        case "stepsRemoved" =>
          (match DecodeInt(kv[2], 16)
           case Decoded(v) => Some(cur.(stepsRemoved := v.n))
           case _ => None)
        case "offsetFromMaster" =>
          (match parseFloat(kv[2])
           case Some(x) => Some(cur.(offsetFromMaster := x))
           case None => None)
        case "meanPathDelay" =>
          (match parseFloat(kv[2])
           case Some(x) => Some(cur.(meanPathDelay := x))
           case None => None)
        case _ => Some(cur)
  }

  /** The scanner loop: the record at the end, or as it stood when a value did not parse. */
  function CurrentLines(cur: CurrentDs, lines: seq<string>, parseFloat: FloatParser): Outcome<CurrentDs>
    decreases |lines|
  {
    if lines == [] then Complete(cur)
    else match CurrentLine(cur, lines[0], parseFloat)
      case None => Stopped(cur)
      case Some(next) => CurrentLines(next, lines[1..], parseFloat)
  }

  /** What ParseCurrentDs returns: every line of the reply scanned from the zero record. */
  function CurrentDataSet(data: string, parseFloat: FloatParser): Outcome<CurrentDs> {
    CurrentLines(EmptyCurrent, ScanLines(data), parseFloat)
  }

  /** ParseCurrentDs: the scanner loop over the reply's lines. */
  method ParseCurrentDs(data: string, parseFloat: FloatParser) returns (r: Outcome<CurrentDs>)
    ensures r == CurrentDataSet(data, parseFloat)
  {
    var lines := ScanLines(data);
    var current := EmptyCurrent;
    var i := 0;
    while i < |lines|
      invariant 0 <= i <= |lines|
      invariant CurrentLines(current, lines[i..], parseFloat) == CurrentDataSet(data, parseFloat)
    {
      assert lines[i..][0] == lines[i] && lines[i..][1..] == lines[i + 1..];
      var line := lines[i];
      i := i + 1;
      if Contains(line, "CURRENT_DATA_SET") {
        continue;
      }
      var kv := Split(ReplaceBlankRuns(line, "="), "=");
      if |kv| != 3 {
        continue;
      }
      match kv[1]
      case "stepsRemoved" =>
        var d := DecodeInt(kv[2], 16);
        if !d.Decoded? {
          return Stopped(current);
        }
        current := current.(stepsRemoved := d.v.n);
      case "offsetFromMaster" =>
        var x := parseFloat(kv[2]);
        if x.None? {
          return Stopped(current);
        }
        current := current.(offsetFromMaster := x.value);
      case "meanPathDelay" =>
        var x := parseFloat(kv[2]);
        if x.None? {
          return Stopped(current);
        }
        current := current.(meanPathDelay := x.value);
      case _ =>
    }
    assert lines[i..] == [];
    return Complete(current);
  }

  /** stepsRemoved stays within 16 bits, with or without an error. */
  lemma {:induction false} StepsRemovedInRange(cur: CurrentDs, lines: seq<string>, parseFloat: FloatParser)
    requires -0x8000 <= cur.stepsRemoved < 0x8000
    ensures var r := CurrentLines(cur, lines, parseFloat);
            !r.Panicked? && -0x8000 <= r.value.stepsRemoved < 0x8000
    decreases |lines|
  {
    if lines != [] {
      match CurrentLine(cur, lines[0], parseFloat)
      case None =>
      case Some(next) =>
        CurrentLinesInRangeStep(cur, lines[0], parseFloat);
        StepsRemovedInRange(next, lines[1..], parseFloat);
    }
  }

  /** One line keeps stepsRemoved within 16 bits. */
  lemma {:induction false} CurrentLinesInRangeStep(cur: CurrentDs, line: string, parseFloat: FloatParser)
    requires -0x8000 <= cur.stepsRemoved < 0x8000
    ensures CurrentLine(cur, line, parseFloat).Some? ==>
              -0x8000 <= CurrentLine(cur, line, parseFloat).value.stepsRemoved < 0x8000
  {
  }

  /** ParseCurrentDs never panics, and stepsRemoved fits 16 bits. */
  lemma {:induction false} CurrentDataSetInRange(data: string, parseFloat: FloatParser)
    ensures var r := CurrentDataSet(data, parseFloat);
            !r.Panicked? && -0x8000 <= r.value.stepsRemoved < 0x8000
  {
    StepsRemovedInRange(EmptyCurrent, ScanLines(data), parseFloat);
  }

  /** A line naming the data set is skipped, even when it also looks like a field line. */
  lemma {:induction false} CurrentHeaderSkipped(cur: CurrentDs, line: string, rest: seq<string>, parseFloat: FloatParser)
    requires Contains(line, "CURRENT_DATA_SET")
    ensures CurrentLines(cur, [line] + rest, parseFloat) == CurrentLines(cur, rest, parseFloat)
  {
    assert ([line] + rest)[0] == line && ([line] + rest)[1..] == rest;
  }

  /** The line sets stepsRemoved: it does not name the data set, and it splits into three parts with that key in the middle. */
  predicate SetsSteps(line: string) {
    !Contains(line, "CURRENT_DATA_SET")
    && var kv := Split(ReplaceBlankRuns(line, "="), "=");
       |kv| == 3 && kv[1] == "stepsRemoved"
  }

  /** The scan of two blocks of lines: the second continues from the record the first completed. */
  lemma {:induction false} CurrentLinesAppend(cur: CurrentDs, a: seq<string>, b: seq<string>, parseFloat: FloatParser)
    ensures CurrentLines(cur, a + b, parseFloat)
         == match CurrentLines(cur, a, parseFloat)
            case Complete(q) => CurrentLines(q, b, parseFloat)
            case other => other
    decreases |a|
  {
    if a == [] {
      assert a + b == b;
    } else {
      assert (a + b)[0] == a[0] && (a + b)[1..] == a[1..] + b;
      match CurrentLine(cur, a[0], parseFloat)
      case Some(next) =>
        CurrentLinesAppend(next, a[1..], b, parseFloat);
      case None =>
    }
  }

  /** Lines that do not set stepsRemoved leave it as it was, whether the scan completes or stops. */
  lemma {:induction false} CurrentTailKeepsSteps(cur: CurrentDs, lines: seq<string>, parseFloat: FloatParser)
    requires forall k :: 0 <= k < |lines| ==> !SetsSteps(lines[k])
    ensures var r := CurrentLines(cur, lines, parseFloat);
            !r.Panicked? && r.value.stepsRemoved == cur.stepsRemoved
    decreases |lines|
  {
    if lines != [] {
      assert !SetsSteps(lines[0]);
      match CurrentLine(cur, lines[0], parseFloat)
      case None =>
      case Some(next) =>
        assert next.stepsRemoved == cur.stepsRemoved;
        assert forall k :: 0 <= k < |lines[1..]| ==> lines[1..][k] == lines[k + 1];
        CurrentTailKeepsSteps(next, lines[1..], parseFloat);
    }
  }

  /** The last stepsRemoved line wins: stepsRemoved holds the value that line gives. */
  lemma {:induction false} CurrentLastStepsWins(cur: CurrentDs, lines: seq<string>, i: nat, n: int, parseFloat: FloatParser)
    requires i < |lines| && SetsSteps(lines[i])
    requires DecodeInt(Split(ReplaceBlankRuns(lines[i], "="), "=")[2], 16) == Decoded(Number(n))
    requires forall k :: i < k < |lines| ==> !SetsSteps(lines[k])
    requires CurrentLines(cur, lines, parseFloat).Complete?
    ensures CurrentLines(cur, lines, parseFloat).value.stepsRemoved == n
  {
    var pre, post := lines[..i], lines[i + 1..];
    SliceAround(lines, i);
    CurrentLinesAppend(cur, pre, [lines[i]] + post, parseFloat);
    var q := CurrentLines(cur, pre, parseFloat).value;
    assert ([lines[i]] + post)[0] == lines[i] && ([lines[i]] + post)[1..] == post;
    assert CurrentLine(q, lines[i], parseFloat) == Some(q.(stepsRemoved := n));
    assert forall k :: 0 <= k < |post| ==> post[k] == lines[i + 1 + k];
    CurrentTailKeepsSteps(q.(stepsRemoved := n), post, parseFloat);
  }

  /** A value that does not parse returns the record as the lines before it left it. */
  lemma {:induction false} CurrentStopsWithPrefix(cur: CurrentDs, lines: seq<string>, parseFloat: FloatParser) returns (k: nat)
    requires CurrentLines(cur, lines, parseFloat).Stopped?
    ensures k < |lines|
    ensures CurrentLines(cur, lines[..k], parseFloat) == Complete(CurrentLines(cur, lines, parseFloat).value)
    ensures CurrentLine(CurrentLines(cur, lines, parseFloat).value, lines[k], parseFloat).None?
    decreases |lines|
  {
    match CurrentLine(cur, lines[0], parseFloat)
    case Some(next) =>
      var j := CurrentStopsWithPrefix(next, lines[1..], parseFloat);
      k := j + 1;
      assert lines[..k][0] == lines[0] && lines[..k][1..] == lines[1..][..j];
    case None =>
      k := 0;
      assert lines[..0] == [];
  }

  /** An indented "stepsRemoved" line sets stepsRemoved to the value ParseInt reads, and nothing else. */
  lemma {:induction false} StepsRemovedLine(cur: CurrentDs, b1: string, b2: string, value: string, n: int, parseFloat: FloatParser)
    requires b1 != [] && b2 != [] && Blanks(b1) && Blanks(b2) && Word(value) && '=' !in value
    requires !Contains(b1 + "stepsRemoved" + b2 + value, "CURRENT_DATA_SET")
    requires ParseInt(value, 0, 16) == Parsed(n)
    ensures SetsSteps(b1 + "stepsRemoved" + b2 + value)
    ensures CurrentLine(cur, b1 + "stepsRemoved" + b2 + value, parseFloat) == Some(cur.(stepsRemoved := n))
  {
    StepsRemovedKey();
    IndentedFieldLine(b1, "stepsRemoved", b2, value);
  }

  /** The key is a word without '='. */
  lemma StepsRemovedKey()
    ensures "stepsRemoved" != [] && Word("stepsRemoved") && '=' !in "stepsRemoved"
  {
  }
}
