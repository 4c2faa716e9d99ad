/** `passwords.py`: repetition and sequence checks on a candidate password.

Texts here are already normalised and case-folded. */
module Passwords {
  import opened Outcomes

  // -- the longest common run ----------------------------------------------------------

  predicate OccursAt(part: string, source: string, at: nat) {
    at + |part| <= |source| && source[at..at + |part|] == part
  }

  /** Python's `part in source`. */
  predicate Occurs(part: string, source: string) {
    exists at :: 0 <= at <= |source| && OccursAt(part, source, at)
  }

  /** `text[start:start + n]` is a stretch of `text` found in `source`. */
  predicate CommonRun(text: string, source: string, start: nat, n: nat) {
    start + n <= |text| && Occurs(text[start..start + n], source)
  }

  /** Every beginning of a common run is a common run from the same place. */
  lemma ShorterRun(text: string, source: string, start: nat, n: nat, k: nat)
    requires CommonRun(text, source, start, n) && k <= n
    ensures CommonRun(text, source, start, k)
  {
    var at :| 0 <= at <= |source| && OccursAt(text[start..start + n], source, at);
    assert source[at..at + k] == source[at..at + n][..k] == text[start..start + n][..k] == text[start..start + k];
    assert OccursAt(text[start..start + k], source, at);
  }

  /** `best` is exactly the greatest length of a contiguous stretch of `text` occurring in `source`,
      although no stretch is ever tried at a length already reached. */
  method LongestCommonRun(text: string, source: string) returns (best: nat)
    ensures exists start :: 0 <= start <= |text| && CommonRun(text, source, start, best)
    ensures forall start: nat, n: nat :: CommonRun(text, source, start, n) ==> n <= best
  {
    best := 0;
    assert OccursAt(text[0..0], source, 0);
    assert CommonRun(text, source, 0, 0);
    for start := 0 to |text|
      invariant exists s :: 0 <= s <= |text| && CommonRun(text, source, s, best)
      invariant forall s: nat, n: nat :: s < start && CommonRun(text, source, s, n) ==> n <= best
    {
      var end := start + best + 1;
      while end <= |text| && Occurs(text[start..end], source)
        invariant end == start + best + 1
        invariant exists s :: 0 <= s <= |text| && CommonRun(text, source, s, best)
        invariant forall s: nat, n: nat :: s < start && CommonRun(text, source, s, n) ==> n <= best
        decreases |text| - end
      {
        best := end - start;
        assert CommonRun(text, source, start, best);
        end := end + 1;
      }
      forall n: nat | CommonRun(text, source, start, n) ensures n <= best {
        if n > best { ShorterRun(text, source, start, n, best + 1); }
      }
    }
  }

  // -- repetition ------------------------------------------------------------------------

  function Repeated(unit: string, times: nat): string {
    if times == 0 then "" else unit + Repeated(unit, times - 1)
  }

  lemma {:induction false} RepeatedLength(unit: string, times: nat)
    ensures |Repeated(unit, times)| == |unit| * times
  {
    if times > 0 {
      RepeatedLength(unit, times - 1);
      assert |unit| * times == |unit| * (times - 1) + |unit|;
    }
  }

  /** The test the validator makes: the first `size` characters, repeated and cut, give the text. */
  predicate RepeatsUnit(text: string, size: nat)
    requires text != "" && size >= 1
  {
    var unit := text[..if size <= |text| then size else |text|];
    var copies := Repeated(unit, |text| / size + 1);
    |text| <= |copies| && copies[..|text|] == text
  }

  /** The text has period `size`: every character equals the one `size` places before it. */
  predicate HasPeriod(text: string, size: nat) {
    forall i :: size <= i < |text| ==> text[i] == text[i - size]
  }

  lemma {:induction false} FewerCopiesFirst(unit: string, times: nat)
    requires times >= 1
    ensures Repeated(unit, times - 1) <= Repeated(unit, times)
  {
    if times > 1 { FewerCopiesFirst(unit, times - 1); }
  }

  lemma {:induction false} CopiesHavePeriod(unit: string, times: nat)
    ensures HasPeriod(Repeated(unit, times), |unit|)
  {
    if times > 0 {
      FewerCopiesFirst(unit, times);
      var copies, fewer := Repeated(unit, times), Repeated(unit, times - 1);
      forall i | |unit| <= i < |copies| ensures copies[i] == copies[i - |unit|] {
        assert copies[i] == fewer[i - |unit|];
      }
    }
  }

  /** Two texts of the same period that start alike agree wherever both reach. */
  lemma {:induction false} PeriodDetermines(a: string, b: string, size: nat, i: nat)
    requires size >= 1 && HasPeriod(a, size) && HasPeriod(b, size)
    requires size <= |a| && size <= |b| && a[..size] == b[..size]
    requires i < |a| && i < |b|
    ensures a[i] == b[i]
  {
    if i < size {
      assert a[i] == a[..size][i] == b[..size][i];
    } else {
      PeriodDetermines(a, b, size, i - size);
    }
  }

  lemma CopiesCover(n: nat, size: nat)
    requires size >= 1
    ensures n <= size * (n / size + 1)
  {
  }

  lemma CopiesReach(unit: string, n: nat)
    requires |unit| >= 1
    ensures |Repeated(unit, n / |unit| + 1)| >= n
  {
    RepeatedLength(unit, n / |unit| + 1);
    CopiesCover(n, |unit|);
  }

  lemma CopiesMatch(text: string, copies: string, size: nat)
    requires 1 <= size <= |text| <= |copies|
    requires HasPeriod(copies, size) && copies[..size] == text[..size]
    ensures copies[..|text|] == text <==> HasPeriod(text, size)
  {
    if HasPeriod(text, size) {
      forall i | 0 <= i < |text| ensures copies[..|text|][i] == text[i] {
        PeriodDetermines(copies, text, size, i);
      }
    }
    if copies[..|text|] == text {
      forall i | size <= i < |text| ensures text[i] == text[i - size] {
        assert text[i] == copies[i] && text[i - size] == copies[i - size];
      }
    }
  }

  /** Repeating the first `size` characters gives the text back exactly when it has that period. */
  lemma RepeatsIffPeriod(text: string, size: nat)
    requires text != "" && size >= 1
    ensures RepeatsUnit(text, size) <==> HasPeriod(text, size)
  {
    var n := |text|;
    if size > n {
      OneCopy(text, size);
    } else {
      var unit := text[..size];
      var times := n / size + 1;
      CopiesHavePeriod(unit, times);
      CopiesReach(unit, n);
      CopiesStart(unit, times);
      CopiesMatch(text, Repeated(unit, times), size);
    }
  }

  lemma OneCopy(text: string, size: nat)
    requires 1 <= |text| < size
    ensures RepeatsUnit(text, size)
  {
    assert |text| / size == 0;
    assert Repeated(text, 1) == text + Repeated(text, 0) == text;
    assert text[..|text|] == text;
  }

  lemma CopiesStart(unit: string, times: nat)
    requires times >= 1
    ensures unit <= Repeated(unit, times)
  {
  }

  // -- the validator --------------------------------------------------------------------

  const SEQUENCES: seq<string> := [
    "abcdefghijklmnopqrstuvwxyz",
    "abcdefghijklmnopqrs\U{0161}z\U{017E}tuvw\U{00F5}\U{00E4}\U{00F6}\U{00FC}xy",
    "0123456789",
    "qwertyuiopasdfghjklzxcvbnm",
    "qwertyuiop\U{00FC}\U{00F5}asdfghjkl\U{00F6}\U{00E4}zxcvbnm"]

  function Reversed(s: string): string {
    if s == "" then "" else Reversed(s[1..]) + [s[0]]
  }

  /** A sequence read cyclically, forwards or backwards: three copies end to end. */
  function Source(sequence: string, forwards: bool): string {
    var s := if forwards then sequence else Reversed(sequence);
    s + s + s
  }

  function Compact(text: string, isSpace: char -> bool): string {
    if text == "" then ""
    else
      var last := text[|text| - 1];
      if isSpace(last) then Compact(text[..|text| - 1], isSpace) else Compact(text[..|text| - 1], isSpace) + [last]
  }

  datatype Flaw = Repetitive | Sequential

  predicate IsRepetitive(text: string) {
    text != "" && exists size :: 1 <= size <= 4 && HasPeriod(text, size)
  }

  predicate HasRun(compact: string, source: string, n: nat) {
    exists start :: 0 <= start <= |compact| && CommonRun(compact, source, start, n)
  }

  /** All but two characters of `compact` run along `source`. */
  predicate RunsAlong(compact: string, source: string) {
    |compact| >= 8 && HasRun(compact, source, |compact| - 2)
  }

  /** They run along a keyboard row, an alphabet or the digits, in either direction. */
  predicate IsSequential(compact: string, sequences: seq<string>) {
    exists k, forwards :: 0 <= k < |sequences| && RunsAlong(compact, Source(sequences[k], forwards))
  }

  method SequenceCheck(compact: string, source: string) returns (found: bool)
    ensures found <==> RunsAlong(compact, source)
  {
    if |compact| < 8 { return false; }
    var run := LongestCommonRun(compact, source);
    found := run >= |compact| - 2;
    if found {
      ghost var start :| 0 <= start <= |compact| && CommonRun(compact, source, start, run);
      ShorterRun(compact, source, start, run, |compact| - 2);
    }
  }

  method RepetitionCheck(text: string) returns (found: bool)
    requires text != ""
    ensures found <==> IsRepetitive(text)
  {
    for size := 1 to 5
      invariant forall s :: 1 <= s < size ==> !HasPeriod(text, s)
    {
      RepeatsIffPeriod(text, size);
      if RepeatsUnit(text, size) { return true; }
    }
    return false;
  }

  method SequencesCheck(compact: string, sequences: seq<string>) returns (found: bool)
    ensures found <==> IsSequential(compact, sequences)
  {
    for k := 0 to |sequences|
      invariant forall l, forwards :: 0 <= l < k ==> !RunsAlong(compact, Source(sequences[l], forwards))
    {
      found := SequenceCheck(compact, Source(sequences[k], true));
      if found { return; }
      found := SequenceCheck(compact, Source(sequences[k], false));
      if found { return; }
    }
    return false;
  }

  // -- what the validator's checks come to ------------------------------------------------------

  /** `n` characters of `text` from `start` on are those of `sequence` read from place `at`, in either direction
      and starting over where it ends, at most three times through. */
  ghost predicate ReadsAlong(text: string, start: nat, n: nat, sequence: string, forwards: bool, at: nat) {
    && start + n <= |text| && at + n <= 3 * |sequence|
    && forall i :: start <= i < start + n ==> text[i] == Place(sequence, forwards, at + (i - start))
  }

  ghost predicate HasReading(text: string, n: nat, sequence: string) {
    exists start: nat, forwards, at: nat :: ReadsAlong(text, start, n, sequence, forwards, at)
  }

  function Place(sequence: string, forwards: bool, at: nat): char
    requires sequence != ""
  {
    var i := at % |sequence|;
    sequence[if forwards then i else |sequence| - 1 - i]
  }

  lemma {:induction false} ReversedIs(s: string)
    ensures |Reversed(s)| == |s|
    ensures forall i :: 0 <= i < |s| ==> Reversed(s)[i] == s[|s| - 1 - i]
  {
    if s != "" { ReversedIs(s[1..]); }
  }

  lemma SourceIs(sequence: string, forwards: bool)
    ensures |Source(sequence, forwards)| == 3 * |sequence|
    ensures forall at :: 0 <= at < 3 * |sequence| ==> Source(sequence, forwards)[at] == Place(sequence, forwards, at)
  {
    ReversedIs(sequence);
    forall at | 0 <= at < 3 * |sequence| ensures Source(sequence, forwards)[at] == Place(sequence, forwards, at) {
      Wraps(at, |sequence|);
    }
  }

  lemma Wraps(at: nat, n: nat)
    requires at < 3 * n
    ensures at % n == if at < n then at else if at < 2 * n then at - n else at - 2 * n
  {
    if at >= 2 * n {
      assert at == 2 * n + (at - 2 * n);
    } else if at >= n {
      assert at == n + (at - n);
    }
  }

  lemma RunReadsAlong(text: string, start: nat, n: nat, sequence: string, forwards: bool)
    ensures CommonRun(text, Source(sequence, forwards), start, n)
       <==> exists at: nat :: ReadsAlong(text, start, n, sequence, forwards, at)
  {
    hide Place;
    var source := Source(sequence, forwards);
    if CommonRun(text, source, start, n) {
      var at: nat :| at <= |source| && OccursAt(text[start..start + n], source, at);
      OccursReads(text, start, n, sequence, forwards, at);
    }
    if at: nat :| ReadsAlong(text, start, n, sequence, forwards, at) {
      OccursReads(text, start, n, sequence, forwards, at);
    }
  }

  lemma OccursReads(text: string, start: nat, n: nat, sequence: string, forwards: bool, at: nat)
    ensures var source := Source(sequence, forwards);
            start + n <= |text| && at <= |source| && OccursAt(text[start..start + n], source, at)
            <==> ReadsAlong(text, start, n, sequence, forwards, at)
  {
    var source := Source(sequence, forwards);
    SourceIs(sequence, forwards);
    hide Place, Source;
    if start + n <= |text| && at + n <= |source| {
      var part, there := text[start..start + n], source[at..at + n];
      if part == there {
        forall i | start <= i < start + n ensures text[i] == Place(sequence, forwards, at + (i - start)) {
          assert part[i - start] == there[i - start];
        }
      }
      if ReadsAlong(text, start, n, sequence, forwards, at) {
        forall k | 0 <= k < n ensures part[k] == there[k] {
          assert text[start + k] == Place(sequence, forwards, at + k);
        }
      }
    }
  }

  lemma SequentialIff(compact: string)
    ensures IsSequential(compact, SEQUENCES) <==>
              |compact| >= 8 && exists sequence :: sequence in SEQUENCES && HasReading(compact, |compact| - 2, sequence)
  {
    hide Source, ReadsAlong, CommonRun, SEQUENCES;
    if IsSequential(compact, SEQUENCES) {
      var k, forwards :| 0 <= k < |SEQUENCES| && RunsAlong(compact, Source(SEQUENCES[k], forwards));
      var start: nat :| start <= |compact| && CommonRun(compact, Source(SEQUENCES[k], forwards), start, |compact| - 2);
      RunReadsAlong(compact, start, |compact| - 2, SEQUENCES[k], forwards);
      assert SEQUENCES[k] in SEQUENCES;
    }
    if |compact| >= 8 {
      forall sequence | sequence in SEQUENCES && HasReading(compact, |compact| - 2, sequence)
        ensures IsSequential(compact, SEQUENCES)
      {
        var start: nat, forwards, at: nat :| ReadsAlong(compact, start, |compact| - 2, sequence, forwards, at);
        RunReadsAlong(compact, start, |compact| - 2, sequence, forwards);
        RunStarts(compact, Source(sequence, forwards), start, |compact| - 2);
        var k :| 0 <= k < |SEQUENCES| && SEQUENCES[k] == sequence;
        assert RunsAlong(compact, Source(SEQUENCES[k], forwards));
      }
    }
  }

  lemma RunStarts(text: string, source: string, start: nat, n: nat)
    requires CommonRun(text, source, start, n)
    ensures start <= |text| && HasRun(text, source, n)
  {
  }

  lemma {:induction false} CompactConcat(a: string, b: string, isSpace: char -> bool)
    ensures Compact(a + b, isSpace) == Compact(a, isSpace) + Compact(b, isSpace)
  {
    if b == "" {
      assert a + b == a;
    } else {
      var n := |b| - 1;
      CompactConcat(a, b[..n], isSpace);
      assert (a + b)[..|a + b| - 1] == a + b[..n];
    }
  }

  lemma OneCharacter(c: char, isSpace: char -> bool)
    ensures Compact([c], isSpace) == if isSpace(c) then "" else [c]
  {
    assert [c][..0] == "";
  }

  /** A space may stand anywhere, and any other character may not be left out. */
  lemma SpacesDoNotMatter(a: string, c: char, b: string, isSpace: char -> bool)
    ensures isSpace(c) ==> Compact(a + [c] + b, isSpace) == Compact(a + b, isSpace)
    ensures Compact("", isSpace) == "" && (!isSpace(c) ==> Compact(a + [c], isSpace) == Compact(a, isSpace) + [c])
  {
    hide Compact;
    CompactConcat(a + [c], b, isSpace);
    CompactConcat(a, [c], isSpace);
    CompactConcat(a, b, isSpace);
    OneCharacter(c, isSpace);
    NothingIsCompact(isSpace);
  }

  lemma NothingIsCompact(isSpace: char -> bool)
    ensures Compact("", isSpace) == ""
  {
  }

  /** The validator refuses exactly the texts with a period of 1 to 4 and, of the others, exactly
      those whose characters run along one of the sequences but for two. */
  method Validate(text: string, isSpace: char -> bool) returns (flaw: Option<Flaw>)
    ensures flaw == Some(Repetitive) <==>
              text != "" && exists size :: 1 <= size <= 4 && HasPeriod(text, size)
    ensures var compact := Compact(text, isSpace);
            flaw == Some(Sequential) <==>
              && text != "" && !(exists size :: 1 <= size <= 4 && HasPeriod(text, size))
              && |compact| >= 8 && exists sequence :: sequence in SEQUENCES && HasReading(compact, |compact| - 2, sequence)
  {
    SequentialIff(Compact(text, isSpace));
    hide Compact, HasReading, IsSequential, SEQUENCES;
    if text == "" { return None; }
    var repeated := RepetitionCheck(text);
    if repeated { return Some(Repetitive); }
    var along := SequencesCheck(Compact(text, isSpace), SEQUENCES);
    flaw := if along then Some(Sequential) else None;
  }
}
