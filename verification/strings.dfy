/**
 * The parts of Go's `strings`, `bufio` and `regexp` packages that the parsers
 * of this repository rely on, as functions on `string` (a sequence of
 * Unicode scalar values; Go's byte strings are read as their UTF-8 text).
 */
module GoStrings {

  /** strings.HasPrefix */
  predicate HasPrefix(s: string, p: string) {
    |p| <= |s| && s[..|p|] == p
  }

  /** `sub` occurs in `s` starting at index `k`. */
  predicate OccursAt(s: string, sub: string, k: int) {
    0 <= k && k + |sub| <= |s| && s[k..k + |sub|] == sub
  }

  /** The first occurrence of `sub` in `s` at or after `from`, or -1 (strings.Index). */
  function IndexFrom(s: string, sub: string, from: nat): (r: int)
    requires from <= |s|
    ensures r == -1 || (from <= r && OccursAt(s, sub, r))
    ensures forall k :: from <= k && (r == -1 || k < r) ==> !OccursAt(s, sub, k)
    decreases |s| - from
  {
    if from + |sub| > |s| then -1
    else if s[from..from + |sub|] == sub then from
    else IndexFrom(s, sub, from + 1)
  }

  /** strings.Contains */
  predicate Contains(s: string, sub: string) {
    exists k :: 0 <= k <= |s| && OccursAt(s, sub, k)
  }

  /** strings.Split for a non-empty separator: the pieces between the occurrences of `sep`. */
  function Split(s: string, sep: string): (parts: seq<string>)
    requires sep != []
    ensures |parts| >= 1
    decreases |s|
  {
    var i := IndexFrom(s, sep, 0);
    if i == -1 then [s] else [s[..i]] + Split(s[i + |sep|..], sep)
  }

  /** strings.Join */
  function Join(parts: seq<string>, sep: string): string {
    if parts == [] then []
    else if |parts| == 1 then parts[0]
    else parts[0] + sep + Join(parts[1..], sep)
  }

  /** Two parts joined: the first, the separator, the second. */
  lemma {:induction false} JoinTwo(a: string, b: string, sep: string)
    ensures Join([a, b], sep) == a + sep + b
  {
    assert [a, b][1..] == [b];
  }

  /** Splitting and joining again with the same separator gives back the text. */
  lemma {:induction false} JoinSplit(s: string, sep: string)
    requires sep != []
    ensures Join(Split(s, sep), sep) == s
    decreases |s|
  {
    var i := IndexFrom(s, sep, 0);
    if i != -1 {
      var head, rest := s[..i], s[i + |sep|..];
      var tail := Split(rest, sep);
      var parts := [head] + tail;
      assert Split(s, sep) == parts;
      assert parts[0] == head && parts[1..] == tail && |parts| >= 2;
      assert Join(parts, sep) == head + sep + Join(tail, sep);
      JoinSplit(rest, sep);
      assert s[i..i + |sep|] == sep;
      assert s == head + s[i..i + |sep|] + rest;
    }
  }

  /** No piece produced by Split contains the separator. */
  lemma {:induction false} SplitPiecesFree(s: string, sep: string)
    requires sep != []
    ensures forall p :: p in Split(s, sep) ==> !Contains(p, sep)
    decreases |s|
  {
    var i := IndexFrom(s, sep, 0);
    if i != -1 {
      var rest := s[i + |sep|..];
      SplitPiecesFree(rest, sep);
      var head := s[..i];
      if Contains(head, sep) {
        var k :| 0 <= k <= |head| && OccursAt(head, sep, k);
        assert head[k..k + |sep|] == s[k..k + |sep|];
        assert OccursAt(s, sep, k);
        assert false;
      }
    }
  }

  /** Text without the one-character separator is a single piece. */
  lemma {:induction false} SplitNoSep(a: string, c: char)
    requires c !in a
    ensures Split(a, [c]) == [a]
  {
    forall k | 0 <= k < |a|
      ensures !OccursAt(a, [c], k)
    {
      assert a[k] in a;
    }
  }

  /** The first piece ends at the first separator character. */
  lemma {:induction false} SplitAtChar(a: string, b: string, c: char)
    requires c !in a
    ensures Split(a + [c] + b, [c]) == [a] + Split(b, [c])
  {
    var s := a + [c] + b;
    assert s[|a|..|a| + 1] == [c];
    assert OccursAt(s, [c], |a|);
    forall k | 0 <= k < |a|
      ensures !OccursAt(s, [c], k)
    {
      assert s[k] == a[k] && a[k] in a;
    }
    var i := IndexFrom(s, [c], 0);
    assert i == |a|;
    assert s[..i] == a;
    assert s[i + 1..] == b;
  }

  /** Text in which the separator's first character does not occur is a single piece. */
  lemma {:induction false} SplitFree(w: string, sep: string)
    requires sep != [] && sep[0] !in w
    ensures Split(w, sep) == [w]
  {
    forall k | 0 <= k < |w|
      ensures !OccursAt(w, sep, k)
    {
      assert w[k] in w;
    }
  }

  /** Text that starts with the separator: an empty first piece. */
  lemma {:induction false} SplitLeadingSep(w: string, sep: string)
    requires sep != []
    ensures Split(sep + w, sep) == [""] + Split(w, sep)
  {
    var s := sep + w;
    assert s[0..|sep|] == sep;
    assert IndexFrom(s, sep, 0) == 0;
    assert s[..0] == "" && s[|sep|..] == w;
  }

  /** Joining pieces that are free of a one-character separator and splitting again gives the pieces back. */
  lemma {:induction false} SplitJoin(parts: seq<string>, sep: string)
    requires |parts| >= 1 && |sep| == 1
    requires forall p :: p in parts ==> sep[0] !in p
    ensures Split(Join(parts, sep), sep) == parts
    decreases |parts|
  {
    var s := Join(parts, sep);
    var i := IndexFrom(s, sep, 0);
    if |parts| == 1 {
      assert s == parts[0] && parts[0] in parts;
      assert forall k :: 0 <= k < |s| ==> s[k] in parts[0];
    } else {
      var rest := Join(parts[1..], sep);
      assert parts[0] in parts;
      assert s == parts[0] + sep + rest;
      assert OccursAt(s, sep, |parts[0]|);
      assert i == |parts[0]|;
      assert s[..i] == parts[0];
      assert s[i + 1..] == rest;
      SplitJoin(parts[1..], sep);
      assert [parts[0]] + parts[1..] == parts;
    }
  }

  /** unicode.IsSpace, the separator class of strings.Fields. */
  predicate IsSpace(c: char) {
    c == '\t' || c == '\n' || c == '\U{B}' || c == '\U{C}' || c == '\r' || c == ' '
    || c == '\U{85}' || c == '\U{A0}' || c == '\U{1680}' || ('\U{2000}' <= c <= '\U{200A}')
    || c == '\U{2028}' || c == '\U{2029}' || c == '\U{202F}' || c == '\U{205F}' || c == '\U{3000}'
  }

  /** The length of the run of non-space characters that starts `s`. */
  function WordLen(s: string): (n: nat)
    ensures n <= |s|
    ensures forall k :: 0 <= k < n ==> !IsSpace(s[k])
    ensures n < |s| ==> IsSpace(s[n])
  {
    if s == [] || IsSpace(s[0]) then 0 else 1 + WordLen(s[1..])
  }

  /** strings.Fields: the maximal runs of non-space characters, in order. */
  function Fields(s: string): (ws: seq<string>)
    ensures forall w :: w in ws ==> w != [] && forall c :: c in w ==> !IsSpace(c)
    decreases |s|
  {
    if s == [] then []
    else if IsSpace(s[0]) then Fields(s[1..])
    else
      var n := WordLen(s);
      [s[..n]] + Fields(s[n..])
  }

  /** A leading space is skipped by Fields. */
  lemma {:induction false} FieldsSkipSpace(c: char, t: string)
    requires IsSpace(c)
    ensures Fields([c] + t) == Fields(t)
  {
    assert ([c] + t)[1..] == t;
  }

  /** Leading spaces are skipped by Fields. */
  lemma {:induction false} FieldsSkipSpaces(sp: string, t: string)
    requires forall c :: c in sp ==> IsSpace(c)
    ensures Fields(sp + t) == Fields(t)
    decreases |sp|
  {
    if sp != [] {
      assert sp[0] in sp;
      calc {
        Fields(sp + t);
        { assert sp + t == [sp[0]] + (sp[1..] + t); }
        Fields([sp[0]] + (sp[1..] + t));
        { FieldsSkipSpace(sp[0], sp[1..] + t); }
        Fields(sp[1..] + t);
        { FieldsSkipSpaces(sp[1..], t); }
        Fields(t);
      }
    } else {
      assert sp + t == t;
    }
  }

  /** A word followed by a space (or by nothing) is the first field. */
  lemma {:induction false} FieldsWord(w: string, t: string)
    requires w != [] && forall c :: c in w ==> !IsSpace(c)
    requires t == [] || IsSpace(t[0])
    ensures Fields(w + t) == [w] + Fields(t)
  {
    var s := w + t;
    var n := WordLen(s);
    assert forall k :: 0 <= k < |w| ==> s[k] == w[k] && s[k] in w;
    assert |w| < |s| ==> s[|w|] == t[0];
    assert n == |w|;
    assert s[..n] == w && s[n..] == t;
  }

  /** The characters that the POSIX class [[:blank:]] matches. */
  predicate IsBlank(c: char) {
    c == ' ' || c == '\t'
  }

  /** The length of the run of blanks that starts `s`. */
  function BlankRunLen(s: string): (n: nat)
    ensures n <= |s|
    ensures forall k :: 0 <= k < n ==> IsBlank(s[k])
    ensures n < |s| ==> !IsBlank(s[n])
  {
    if s == [] || !IsBlank(s[0]) then 0 else 1 + BlankRunLen(s[1..])
  }

  /** regexp.MustCompile(`[[:blank:]]+`).ReplaceAllString(s, rep): every maximal run of blanks becomes `rep`. */
  function ReplaceBlankRuns(s: string, rep: string): (r: string)
    ensures (forall c :: c in rep ==> !IsBlank(c)) ==> forall c :: c in r ==> !IsBlank(c)
    ensures (forall c :: c in s ==> !IsBlank(c)) ==> r == s
    decreases |s|
  {
    if s == [] then []
    else if IsBlank(s[0]) then
      var n := BlankRunLen(s);
      rep + ReplaceBlankRuns(s[n..], rep)
    else [s[0]] + ReplaceBlankRuns(s[1..], rep)
  }

  /** Text that starts with a run of blanks: the run becomes `rep`. */
  lemma {:induction false} ReplaceBlankRunsLead(b: string, s: string, rep: string)
    requires b != [] && forall c :: c in b ==> IsBlank(c)
    requires s == [] || !IsBlank(s[0])
    ensures ReplaceBlankRuns(b + s, rep) == rep + ReplaceBlankRuns(s, rep)
  {
    var t := b + s;
    assert t[0] == b[0] && b[0] in b;
    assert forall k :: 0 <= k < |b| ==> t[k] == b[k] && b[k] in b;
    assert |b| < |t| ==> t[|b|] == s[0];
    assert BlankRunLen(t) == |b|;
    assert t[|b|..] == s;
  }

  /** A sequence is what comes before index i, the element at i, and what follows. */
  lemma {:induction false} SliceAround<T>(s: seq<T>, i: nat)
    requires i < |s|
    ensures s == s[..i] + ([s[i]] + s[i + 1..])
  {
    assert [s[i]] + s[i + 1..] == s[i..];
    assert s[..i] + s[i..] == s;
  }

  /** Putting the head back in front of the tail. */
  lemma {:induction false} ConsConcat<T>(x: seq<T>, y: seq<T>)
    requires x != []
    ensures [x[0]] + (x[1..] + y) == x + y
  {
    assert [x[0]] + x[1..] == x;
  }

  /** Text that starts with a word without blanks: the word is kept. */
  lemma {:induction false} ReplaceBlankRunsWord(w: string, s: string, rep: string)
    requires forall c :: c in w ==> !IsBlank(c)
    ensures ReplaceBlankRuns(w + s, rep) == w + ReplaceBlankRuns(s, rep)
    decreases |w|
  {
    if w == [] {
      assert w + s == s;
    } else {
      var t := w + s;
      assert t[0] == w[0] && w[0] in w;
      assert t[1..] == w[1..] + s;
      assert forall c :: c in w[1..] ==> c in w;
      ReplaceBlankRunsWord(w[1..], s, rep);
      var r := ReplaceBlankRuns(s, rep);
      calc {
        ReplaceBlankRuns(t, rep);
        [w[0]] + ReplaceBlankRuns(w[1..] + s, rep);
        [w[0]] + (w[1..] + r);
        { ConsConcat(w, r); }
        w + r;
      }
    }
  }

  /** strings.ReplaceAll for a non-empty pattern: non-overlapping occurrences, left to right. */
  function ReplaceAll(s: string, pattern: string, replacement: string): string
    requires pattern != []
  {
    Join(Split(s, pattern), replacement)
  }

  /** bufio.ScanLines drops one carriage return that ends a line. */
  function DropCR(line: string): (r: string)
    ensures r == line || line == r + "\r"
  {
    if line != [] && line[|line| - 1] == '\r' then line[..|line| - 1] else line
  }

  /**
   * The lines a bufio.Scanner with ScanLines yields: the text split at '\n', a
   * final empty piece (after a closing newline, or of empty text) dropped, and
   * one trailing '\r' taken off each line.
   */
  function ScanLines(s: string): (lines: seq<string>)
    ensures |lines| <= |Split(s, "\n")|
  {
    var parts := Split(s, "\n");
    var whole := if parts[|parts| - 1] == [] then parts[..|parts| - 1] else parts;
    seq(|whole|, k requires 0 <= k < |whole| => DropCR(whole[k]))
  }
}
