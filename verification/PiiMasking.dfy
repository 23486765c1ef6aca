/**
 PII masking: pattern after pattern, every match is replaced in place by a placeholder and
 the edit is logged; unmasking replays the log forwards with a running offset.

 Text is a sequence of single-byte characters, and a pattern is any function from a text
 to the ranges it matches, sorted and disjoint as a regex iterator yields them.
 */
module PiiMasking {
  import opened Wrappers
  import opened Sequences
  import opened EditLogs
  import opened ReplayOrder

  datatype Range = Range(start: nat, end: nat)

  datatype Pattern = Pattern(find: Text -> seq<Range>, replacement: Text)

  ghost predicate InOrder(ranges: seq<Range>, from: int, len: int) {
    if ranges == [] then from <= len
    else from <= ranges[0].start <= ranges[0].end && InOrder(ranges[1..], ranges[0].end, len)
  }

  ghost predicate Lawful(p: Pattern) {
    forall t: Text :: InOrder(p.find(t), 0, |t|)
  }

  // ------------------------------------------------------------------- one pattern

  // The log of one pattern: each match is found in the text before the pass and looked up
  // at its start minus the shrinkage so far.
  ghost function PassLog(t: Text, ranges: seq<Range>, placeholder: Text, offset: int, from: int): Log
    requires offset <= from && InOrder(ranges, from, |t| + offset)
    decreases |ranges|
  {
    if ranges == [] then []
    else
      RangesBounded(ranges, from, |t| + offset);
      var e := EditOf(t, ranges[0], placeholder, offset);
      var t' := Do(t, e);
      [e] + PassLog(t', ranges[1..], placeholder, offset + e.Shrinks(), ranges[0].end)
  }

  ghost function EditOf(t: Text, r: Range, placeholder: Text, offset: int): (e: Edit)
    requires offset <= r.start <= r.end <= |t| + offset
    ensures Fits(t, e)
  {
    Edit(r.start - offset, t[r.start - offset..r.end - offset], placeholder)
  }

  lemma {:induction false} RangesBounded(ranges: seq<Range>, from: int, len: int)
    requires InOrder(ranges, from, len)
    ensures ranges != [] ==> ranges[0].end <= len
    ensures from <= len
  {
    if ranges != [] {
      RangesBounded(ranges[1..], ranges[0].end, len);
    }
  }

  // Redaction without offsets: the text between matches, with a placeholder per match.
  ghost function Redact(text: Text, ranges: seq<Range>, placeholder: Text, from: nat): Text
    requires InOrder(ranges, from, |text|)
    decreases |ranges|
  {
    RangesBounded(ranges, from, |text|);
    if ranges == [] then text[from..]
    else text[from..ranges[0].start] + placeholder + Redact(text, ranges[1..], placeholder, ranges[0].end)
  }

  // One match: what is done so far grows by the text before the match and the placeholder.
  lemma {:induction false} PassStep(text: Text, r: Range, placeholder: Text, from: nat, done: Text, t: Text)
    requires from <= r.start <= r.end <= |text| && t == done + text[from..]
    ensures var e := EditOf(t, r, placeholder, from - |done|);
            var done' := done + text[from..r.start] + placeholder;
            && Do(t, e) == done' + text[r.end..]
            && from - |done| + e.Shrinks() == r.end - |done'|
            && e.start + |placeholder| == |done'|
  {
    var e := EditOf(t, r, placeholder, from - |done|);
    assert t[..e.start] == done + text[from..r.start];
    assert t[e.start + |e.original|..] == text[r.end..];
  }

  // A pass described by its outcome: a valid log, running left to right, with this result.
  ghost predicate Records(t: Text, log: Log, result: Text, from: int) {
    Valid(t, log) && DoAll(t, log) == result && Increasing(log, from)
  }

  /** One pass is redaction, and its log is a valid one that runs left to right. */
  lemma {:induction false} PassIsRedaction(text: Text, ranges: seq<Range>, placeholder: Text, from: nat,
                                           done: Text, t: Text, offset: int)
    requires InOrder(ranges, from, |text|) && from <= |text| && t == done + text[from..] && offset == from - |done|
    ensures Records(t, PassLog(t, ranges, placeholder, offset, from),
                    done + Redact(text, ranges, placeholder, from), |done|)
    decreases |ranges|
  {
    RangesBounded(ranges, from, |text|);
    if ranges != [] {
      var r := ranges[0];
      var e := EditOf(t, r, placeholder, offset);
      var between := text[from..r.start];
      var done' := done + between + placeholder;
      var t' := Do(t, e);
      PassStep(text, r, placeholder, from, done, t);
      PassIsRedaction(text, ranges[1..], placeholder, r.end, done', t', offset + e.Shrinks());
      var tail := PassLog(t', ranges[1..], placeholder, offset + e.Shrinks(), r.end);
      var rest := Redact(text, ranges[1..], placeholder, r.end);
      Concat3(done, between + placeholder, rest);
      Concat3(done, between, placeholder);
      RecordsCons(t, e, tail, done' + rest, |done|, |done'|);
    }
  }

  lemma {:induction false} RecordsCons(t: Text, e: Edit, tail: Log, result: Text, from: int, next: int)
    requires Fits(t, e) && Records(Do(t, e), tail, result, next) && from <= e.start && next == e.start + |e.placeholder|
    ensures Records(t, [e] + tail, result, from)
  {
    assert ([e] + tail)[1..] == tail;
  }

  ghost function PatternLog(p: Pattern, t: Text): Log
    requires Lawful(p)
  {
    PassLog(t, p.find(t), p.replacement, 0, 0)
  }

  ghost function Redacted(p: Pattern, t: Text): Text
    requires Lawful(p)
  {
    Redact(t, p.find(t), p.replacement, 0)
  }

  lemma {:induction false} PatternLogIsRedaction(p: Pattern, t: Text)
    requires Lawful(p)
    ensures Valid(t, PatternLog(p, t))
    ensures DoAll(t, PatternLog(p, t)) == Redacted(p, t)
    ensures Increasing(PatternLog(p, t), 0)
  {
    var ranges := p.find(t);
    assert InOrder(ranges, 0, |t|);
    assert t == [] + t[0..];
    PassIsRedaction(t, ranges, p.replacement, 0, [], t, 0);
    assert [] + Redact(t, ranges, p.replacement, 0) == Redact(t, ranges, p.replacement, 0);
  }

  // ------------------------------------------------------------------ all patterns

  ghost predicate AllLawful(ps: seq<Pattern>) {
    forall i | 0 <= i < |ps| :: Lawful(ps[i])
  }

  ghost function MaskLog(ps: seq<Pattern>, t: Text): Log
    requires AllLawful(ps)
    decreases |ps|
  {
    if ps == [] then []
    else
      PatternLogIsRedaction(ps[0], t);
      PatternLog(ps[0], t) + MaskLog(ps[1..], DoAll(t, PatternLog(ps[0], t)))
  }

  // What masking means: redact the matches of each pattern in turn.
  ghost function Masked(ps: seq<Pattern>, t: Text): Text
    requires AllLawful(ps)
    decreases |ps|
  {
    if ps == [] then t else Masked(ps[1..], Redacted(ps[0], t))
  }

  /** The log of masking replays from the original text to the masked one. */
  lemma {:induction false} MaskLogIsValid(ps: seq<Pattern>, t: Text)
    requires AllLawful(ps)
    ensures Valid(t, MaskLog(ps, t)) && DoAll(t, MaskLog(ps, t)) == Masked(ps, t)
    decreases |ps|
  {
    if ps != [] {
      PatternLogIsRedaction(ps[0], t);
      var t' := DoAll(t, PatternLog(ps[0], t));
      MaskLogIsValid(ps[1..], t');
      ValidAppend(t, PatternLog(ps[0], t), MaskLog(ps[1..], t'));
    }
  }

  // ------------------------------------------------------------ masking and back

  /** In particular a single pattern always round-trips. */
  lemma {:induction false} SinglePatternRoundTrip(p: Pattern, t: Text)
    requires Lawful(p)
    ensures Replay(Masked([p], t), MaskLog([p], t), 0) == Some(t)
  {
    PatternLogIsRedaction(p, t);
    MaskLogIsValid([p], t);
    var log := PatternLog(p, t);
    assert MaskLog([p], t) == log + MaskLog([p][1..], DoAll(t, log)) == log;
    ReplayRestoresIncreasing(t, log, 0);
  }

  ghost predicate IsOf(e: Edit, text: Text, r: Range, placeholder: Text) {
    r.start <= r.end <= |text| && e.original == text[r.start..r.end] && e.placeholder == placeholder
  }

  // The edits of a pass hide the matches of the pattern, one by one.
  lemma {:induction false} PassHidesMatches(text: Text, ranges: seq<Range>, placeholder: Text, from: nat,
                                            done: Text, t: Text, offset: int, i: nat)
    requires InOrder(ranges, from, |text|) && from <= |text| && t == done + text[from..] && offset == from - |done|
    ensures var log := PassLog(t, ranges, placeholder, offset, from);
            |log| == |ranges| && (i < |log| ==> IsOf(log[i], text, ranges[i], placeholder))
    decreases |ranges|
  {
    RangesBounded(ranges, from, |text|);
    if ranges != [] {
      var r := ranges[0];
      var e := EditOf(t, r, placeholder, offset);
      assert e.original == text[r.start..r.end];
      PassStep(text, r, placeholder, from, done, t);
      PassHidesMatches(text, ranges[1..], placeholder, r.end, done + text[from..r.start] + placeholder,
                       Do(t, e), offset + e.Shrinks(), if i == 0 then 0 else i - 1);
    }
  }

  lemma {:induction false} PatternHidesMatches(p: Pattern, t: Text)
    requires Lawful(p)
    ensures |PatternLog(p, t)| == |p.find(t)|
    ensures forall i | 0 <= i < |PatternLog(p, t)| :: IsOf(PatternLog(p, t)[i], t, p.find(t)[i], p.replacement)
  {
    assert InOrder(p.find(t), 0, |t|) && t == [] + t[0..];
    PassHidesMatches(t, p.find(t), p.replacement, 0, [], t, 0, 0);
    forall i | 0 <= i < |PatternLog(p, t)|
      ensures IsOf(PatternLog(p, t)[i], t, p.find(t)[i], p.replacement)
    {
      PassHidesMatches(t, p.find(t), p.replacement, 0, [], t, 0, i);
    }
  }

  // No match is empty or starts as the placeholder does. The built-in placeholders "[...]" start
  // with a bracket, which no built-in pattern matches first.
  ghost predicate TellingPattern(p: Pattern) {
    forall t: Text, i: nat | i < |p.find(t)| :: TellingRange(t, p.find(t)[i], p.replacement)
  }

  ghost predicate TellingRange(t: Text, r: Range, placeholder: Text) {
    r.start < r.end <= |t| && placeholder != [] && t[r.start] != placeholder[0]
  }

  // Every match is longer than the placeholder, as for the built-in patterns but e-mail.
  ghost predicate ShrinkingPattern(p: Pattern) {
    forall t: Text, i: nat | i < |p.find(t)| :: LongRange(p.find(t)[i], p.replacement)
  }

  ghost predicate LongRange(r: Range, placeholder: Text) {
    r.end - r.start > |placeholder|
  }

  ghost predicate AllShrink(log: Log) {
    forall i | 0 <= i < |log| :: log[i].Shrinks() > 0
  }

  // The placeholder is letters in brackets, and every match has no bracket and something that no
  // such placeholder has; so are all built-in patterns.
  ghost predicate MarkedPattern(p: Pattern) {
    && Bracketed(p.replacement)
    && forall t: Text, i: nat | i < |p.find(t)| :: MarkedRange(t, p.find(t)[i])
  }

  ghost predicate MarkedRange(t: Text, r: Range) {
    r.start <= r.end <= |t| && Marked(t[r.start..r.end])
  }

  ghost predicate MarkedPatterns(ps: seq<Pattern>) {
    forall i | 0 <= i < |ps| :: MarkedPattern(ps[i])
  }

  lemma {:induction false} PatternIsMarked(p: Pattern, t: Text)
    requires Lawful(p) && MarkedPattern(p)
    ensures AllMarked(PatternLog(p, t))
  {
    PatternHidesMatches(p, t);
    var log := PatternLog(p, t);
    forall i | 0 <= i < |log|
      ensures Bracketed(log[i].placeholder) && Marked(log[i].original)
    {
      assert IsOf(log[i], t, p.find(t)[i], p.replacement);
      assert MarkedRange(t, p.find(t)[i]);
    }
  }

  lemma {:induction false} MaskLogIsMarked(ps: seq<Pattern>, t: Text)
    requires AllLawful(ps) && MarkedPatterns(ps)
    ensures AllMarked(MaskLog(ps, t))
    decreases |ps|
  {
    if ps != [] {
      PatternIsMarked(ps[0], t);
      PatternLogIsRedaction(ps[0], t);
      var here, t' := PatternLog(ps[0], t), DoAll(t, PatternLog(ps[0], t));
      MaskLogIsMarked(ps[1..], t');
      MarkedAppend(here, MaskLog(ps[1..], t'));
    }
  }

  lemma MarkedAppend(a: Log, b: Log)
    requires AllMarked(a) && AllMarked(b)
    ensures AllMarked(a + b)
  {
  }

  lemma {:induction false} PatternIsTelling(p: Pattern, t: Text)
    requires Lawful(p)
    ensures TellingPattern(p) ==> AllTelling(PatternLog(p, t))
    ensures ShrinkingPattern(p) ==> AllShrink(PatternLog(p, t))
  {
    PatternHidesMatches(p, t);
    var log := PatternLog(p, t);
    forall i | 0 <= i < |log|
      ensures TellingPattern(p) ==> Telling(log[i])
      ensures ShrinkingPattern(p) ==> log[i].Shrinks() > 0
    {
      assert IsOf(log[i], t, p.find(t)[i], p.replacement);
      assert TellingPattern(p) ==> TellingRange(t, p.find(t)[i], p.replacement);
      assert ShrinkingPattern(p) ==> LongRange(p.find(t)[i], p.replacement);
    }
  }

  ghost predicate TellingPatterns(ps: seq<Pattern>) {
    forall i | 0 <= i < |ps| :: TellingPattern(ps[i])
  }

  ghost predicate ShrinkingPatterns(ps: seq<Pattern>) {
    forall i | 0 <= i < |ps| :: ShrinkingPattern(ps[i])
  }

  lemma TellingAppend(a: Log, b: Log)
    ensures AllTelling(a) && AllTelling(b) ==> AllTelling(a + b)
    ensures AllShrink(a) && AllShrink(b) ==> AllShrink(a + b)
  {
  }

  lemma {:induction false} MaskLogIsTelling(ps: seq<Pattern>, t: Text)
    requires AllLawful(ps)
    ensures TellingPatterns(ps) ==> AllTelling(MaskLog(ps, t))
    ensures ShrinkingPatterns(ps) ==> AllShrink(MaskLog(ps, t))
    decreases |ps|
  {
    if ps != [] {
      PatternIsTelling(ps[0], t);
      PatternLogIsRedaction(ps[0], t);
      var here, t' := PatternLog(ps[0], t), DoAll(t, PatternLog(ps[0], t));
      MaskLogIsTelling(ps[1..], t');
      TellingAppend(here, MaskLog(ps[1..], t'));
    }
  }

  /** Exactly when the masker's round trip holds: for any telling patterns, on every text where no
      match overlaps an earlier placeholder and no match that grew the text is overtaken by a
      later one, unmasking gives back the text iff only length-keeping edits are out of order. */
  lemma {:induction false} MaskRoundTripIff(ps: seq<Pattern>, t: Text)
    requires AllLawful(ps) && TellingPatterns(ps) && Disjoint(MaskLog(ps, t)) && Measured(MaskLog(ps, t))
    ensures Replay(Masked(ps, t), MaskLog(ps, t), 0) == Some(t) <==> Neutral(MaskLog(ps, t))
  {
    MaskLogIsValid(ps, t);
    MaskLogIsTelling(ps, t);
    ReplayRestoresIff(t, MaskLog(ps, t));
  }

  lemma {:induction false} MaskLogAppend(ps: seq<Pattern>, qs: seq<Pattern>, t: Text)
    requires AllLawful(ps) && AllLawful(qs)
    ensures AllLawful(ps + qs) && MaskLog(ps + qs, t) == MaskLog(ps, t) + MaskLog(qs, Masked(ps, t))
    decreases |ps|
  {
    if ps == [] {
      Concat0(qs);
      Concat0(MaskLog(qs, t));
    } else {
      TailOfAppend(ps, qs);
      PatternLogIsRedaction(ps[0], t);
      var t' := DoAll(t, PatternLog(ps[0], t));
      MaskLogAppend(ps[1..], qs, t');
      Concat3(PatternLog(ps[0], t), MaskLog(ps[1..], t'), MaskLog(qs, Masked(ps, t)));
    }
  }

  lemma {:induction false} MaskLogOne(p: Pattern, t: Text)
    requires Lawful(p)
    ensures AllLawful([p]) && MaskLog([p], t) == PatternLog(p, t)
  {
    PatternLogIsRedaction(p, t);
    assert [p][1..] == [];
    Concat0(PatternLog(p, t));
  }

  lemma {:induction false} IncreasingIsSorted(log: Log, from: int)
    requires Increasing(log, from) && AllTelling(log)
    ensures Sorted(log)
  {
    if log != [] {
      var rest, next := log[1..], log[0].start + |log[0].placeholder|;
      assert forall i | 0 < i < |log| :: log[i] == rest[i - 1];
      assert Telling(log[0]);
      IncreasingBeyond(rest, next);
      IncreasingIsSorted(rest, next);
    }
  }

  // When only one sorted stretch of a log can keep the length, being out of order is never harmless.
  lemma {:induction false} OneLooseStretch(a: Log, b: Log, c: Log)
    requires AllShrink(a) && Sorted(b) && AllShrink(c)
    ensures Neutral(a + (b + c)) <==> Sorted(a + (b + c))
  {
    var log := a + (b + c);
    if Neutral(log) {
      forall i, j | 0 <= i < j < |log|
        ensures log[i].start < log[j].start
      {
        if log[j].start <= log[i].start {
          assert Overtakes(log, i, j);
          InMiddle(a, b, c, i);
          InMiddle(a, b, c, j);
        }
      }
    }
    if Sorted(log) {
      forall i, j | 0 <= i < j < |log|
        ensures !Overtakes(log, i, j)
      {
      }
    }
  }

  lemma InMiddle(a: Log, b: Log, c: Log, i: nat)
    requires AllShrink(a) && AllShrink(c) && i < |a + (b + c)| && (a + (b + c))[i].Shrinks() == 0
    ensures |a| <= i < |a| + |b| && (a + (b + c))[i] == b[i - |a|]
  {
  }

  /** Wherever no match is shorter than its placeholder, as the masker's own arithmetic asks, the
      log is measured. */
  lemma {:induction false} NoUnderflowIsMeasured(log: Log)
    requires !Underflows(log)
    ensures Measured(log)
  {
    forall i, j | Overtakes(log, i, j)
      ensures log[i].Shrinks() >= 0 && log[j].Shrinks() >= 0
    {
    }
  }

  /** For patterns shaped like the built-in ones, marked and with only one that can match something
      no longer than its placeholder, on every text: as long as no match shorter than its
      placeholder is overtaken by a later one, and so wherever masking does not underflow,
      unmasking gives back the text iff the recorded starts increase. */
  lemma {:induction false} BuiltInRoundTripIff(before: seq<Pattern>, p: Pattern, after: seq<Pattern>, t: Text)
    requires AllLawful(before + ([p] + after)) && MarkedPatterns(before + ([p] + after))
    requires ShrinkingPatterns(before) && ShrinkingPatterns(after)
    requires Measured(MaskLog(before + ([p] + after), t))
    ensures var ps := before + ([p] + after);
            Replay(Masked(ps, t), MaskLog(ps, t), 0) == Some(t) <==> Sorted(MaskLog(ps, t))
  {
    var ps := before + ([p] + after);
    var log := MaskLog(ps, t);
    MaskLogIsValid(ps, t);
    MaskLogIsMarked(ps, t);
    MarkedIsDisjoint(t, log);
    ReplayRestoresIff(t, log);
    BuiltInIsNeutralIff(before, p, after, t);
  }

  lemma {:induction false} BuiltInIsNeutralIff(before: seq<Pattern>, p: Pattern, after: seq<Pattern>, t: Text)
    requires AllLawful(before + ([p] + after)) && MarkedPatterns(before + ([p] + after))
    requires ShrinkingPatterns(before) && ShrinkingPatterns(after)
    ensures var log := MaskLog(before + ([p] + after), t); Neutral(log) <==> Sorted(log)
  {
    LawfulParts(before, p, after);
    var t1 := Masked(before, t);
    var t2 := Masked([p], t1);
    MaskLogAppend(before, [p] + after, t);
    MaskLogAppend([p], after, t1);
    MaskLogOne(p, t1);
    MaskLogIsTelling(before, t);
    MaskLogIsTelling(after, t2);
    PatternLogIsRedaction(p, t1);
    PatternIsMarked(p, t1);
    MarkedIsDisjoint(t1, PatternLog(p, t1));
    IncreasingIsSorted(PatternLog(p, t1), 0);
    OneLooseStretch(MaskLog(before, t), PatternLog(p, t1), MaskLog(after, t2));
  }

  lemma {:induction false} LawfulParts(before: seq<Pattern>, p: Pattern, after: seq<Pattern>)
    requires AllLawful(before + ([p] + after)) && MarkedPatterns(before + ([p] + after))
    ensures AllLawful(before) && Lawful(p) && AllLawful(after) && AllLawful([p]) && AllLawful([p] + after)
    ensures MarkedPattern(p)
  {
    LawfulAppend(before, [p] + after);
    LawfulAppend([p], after);
    assert (before + ([p] + after))[|before|] == p;
    assert [p][0] == p;
  }

  lemma {:induction false} LawfulAppend(a: seq<Pattern>, b: seq<Pattern>)
    requires AllLawful(a + b)
    ensures AllLawful(a) && AllLawful(b)
  {
    forall i | 0 <= i < |a|
      ensures Lawful(a[i])
    {
      assert (a + b)[i] == a[i];
    }
    forall i | 0 <= i < |b|
      ensures Lawful(b[i])
    {
      assert (a + b)[|a| + i] == b[i];
    }
  }

  // ------------------------------------------------------- matches found out of order

  lemma SlicesAround(u: Text, x: Text, w: Text)
    ensures var t := (u + x) + w;
            t[..|u|] == u && t[0..|u|] == u && t[|u|..|u| + |x|] == x && t[|u| + |x|..] == w
  {
  }

  lemma {:induction false} SingleRange(t: Text, r: Range, placeholder: Text)
    requires r.start <= r.end <= |t|
    ensures InOrder([r], 0, |t|)
    ensures PassLog(t, [r], placeholder, 0, 0) == [Edit(r.start, t[r.start..r.end], placeholder)]
    ensures Redact(t, [r], placeholder, 0) == t[0..r.start] + placeholder + t[r.end..]
  {
    assert [r][1..] == [];
    assert InOrder([], r.end, |t|);
    var e := EditOf(t, r, placeholder, 0);
    assert PassLog(Do(t, e), [], placeholder, e.Shrinks(), r.end) == [];
    Concat0([e]);
  }

  lemma {:induction false} SingleMatch(p: Pattern, u: Text, x: Text, w: Text)
    requires Lawful(p) && p.find((u + x) + w) == [Range(|u|, |u| + |x|)]
    ensures PatternLog(p, (u + x) + w) == [Edit(|u|, x, p.replacement)]
    ensures Redacted(p, (u + x) + w) == (u + p.replacement) + w
  {
    SlicesAround(u, x, w);
    SingleRange((u + x) + w, Range(|u|, |u| + |x|), p.replacement);
  }

  lemma {:induction false} MaskLogTwo(first: Pattern, second: Pattern, t: Text, t': Text, e1: Edit, e2: Edit)
    requires Lawful(first) && Lawful(second) && Redacted(first, t) == t'
    requires PatternLog(first, t) == [e1] && PatternLog(second, t') == [e2]
    ensures AllLawful([first, second]) && MaskLog([first, second], t) == [e1, e2]
    ensures Masked([first, second], t) == Redacted(second, t')
  {
    assert [first, second][1..] == [second] && [second][1..] == [];
    PatternLogIsRedaction(first, t);
    MaskLogOne(second, t');
    assert [e1] + [e2] == [e1, e2];
    assert Masked([second], t') == Masked([], Redacted(second, t'));
  }

  // The text x v y between u and w, where `first` matches y, and `second` then matches x.
  ghost predicate FoundInReverse(first: Pattern, second: Pattern, u: Text, x: Text, v: Text, y: Text, w: Text) {
    && Lawful(first) && Lawful(second)
    && first.find(u + x + v + y + w) == [Range(|u + x + v|, |u + x + v + y|)]
    && second.find(u + x + v + first.replacement + w) == [Range(|u|, |u + x|)]
  }

  lemma {:induction false} ReverseLog(first: Pattern, second: Pattern, u: Text, x: Text, v: Text, y: Text, w: Text)
    requires FoundInReverse(first, second, u, x, v, y, w)
    ensures AllLawful([first, second])
    ensures var t := u + x + v + y + w;
            && MaskLog([first, second], t)
               == [Edit(|u + x + v|, y, first.replacement), Edit(|u|, x, second.replacement)]
            && Masked([first, second], t) == u + second.replacement + v + first.replacement + w
  {
    FirstMatch(first, u, x, v, y, w);
    SecondMatch(second, u, x, v, first.replacement, w);
    MaskLogTwo(first, second, u + x + v + y + w, u + x + v + first.replacement + w,
               Edit(|u + x + v|, y, first.replacement), Edit(|u|, x, second.replacement));
  }

  lemma {:induction false} FirstMatch(p: Pattern, u: Text, x: Text, v: Text, y: Text, w: Text)
    requires Lawful(p) && p.find(u + x + v + y + w) == [Range(|u + x + v|, |u + x + v + y|)]
    ensures PatternLog(p, u + x + v + y + w) == [Edit(|u + x + v|, y, p.replacement)]
    ensures Redacted(p, u + x + v + y + w) == u + x + v + p.replacement + w
  {
    SingleMatch(p, u + x + v, y, w);
  }

  lemma {:induction false} SecondMatch(p: Pattern, u: Text, x: Text, v: Text, y: Text, w: Text)
    requires Lawful(p) && p.find(u + x + v + y + w) == [Range(|u|, |u + x|)]
    ensures PatternLog(p, u + x + v + y + w) == [Edit(|u|, x, p.replacement)]
    ensures Redacted(p, u + x + v + y + w) == u + p.replacement + v + y + w
  {
    Regroup(u, x, v, y, w);
    SingleMatch(p, u, x, v + y + w);
    Regroup(u, p.replacement, v, y, w);
  }

  lemma {:induction false} Regroup(u: Text, x: Text, v: Text, y: Text, w: Text)
    ensures u + x + v + y + w == (u + x) + (v + y + w)
  {
    Concat3(u + x, v, y);
    Concat3(u + x, v + y, w);
  }

  lemma {:induction false} TwoInReverse(e1: Edit, e2: Edit)
    requires e2.start + |e2.original| <= e1.start && Telling(e1) && Telling(e2)
    requires e1.Shrinks() > 0 || (e1.Shrinks() == 0 && e2.Shrinks() > 0)
    ensures AllTelling([e1, e2]) && Disjoint([e1, e2]) && Measured([e1, e2]) && !Neutral([e1, e2])
  {
    var log := [e1, e2];
    assert log[1..] == [e2] && [e2][1..] == [];
    assert Clears(e1.start - e2.Shrinks(), |e1.placeholder|, []);
    assert Clears(e1.start, |e1.placeholder|, [e2]);
    assert Disjoint([e2]);
    assert Overtakes(log, 0, 1);
  }

  lemma {:induction false} ReplayTwo(t: Text, e1: Edit, e2: Edit)
    ensures Replay(t, [e1, e2], 0)
            == match ReplaceRange(t, e1.start, |e1.placeholder|, e1.original)
               case None => None
               case Some(t') => ReplaceRange(t', e2.start + e1.Shrinks(), |e2.placeholder|, e2.original)
  {
    assert [e1, e2][1..] == [e2] && [e2][1..] == [];
    var once := ReplaceRange(t, e1.start, |e1.placeholder|, e1.original);
    if once.Some? {
      var twice := ReplaceRange(once.value, e2.start + e1.Shrinks(), |e2.placeholder|, e2.original);
      assert Replay(once.value, [e2], e1.Shrinks())
             == if twice.Some? then Replay(twice.value, [], e1.Shrinks() + e2.Shrinks()) else None;
    }
  }

  // A character behind a replaced range moves by the change of length.
  lemma BehindRange(t: Text, at: int, len: nat, text: Text, k: nat)
    requires ReplaceRange(t, at, len, text).Some? && at + len <= k < |t|
    ensures var t' := ReplaceRange(t, at, len, text).value;
            0 <= k - len + |text| < |t'| && t'[k - len + |text|] == t[k]
  {
  }

  // The later match grew the text: its neighbour is looked up too far left, and the last
  // character of that neighbour's placeholder stays.
  lemma {:induction false} GrownIsLost(u: Text, x: Text, v: Text, y: Text, w: Text, shownX: Text, shownY: Text)
    requires |y| < |shownY| && 0 < |shownX| <= |x| && x[|x| - 1] != shownX[|shownX| - 1]
    ensures Replay(u + shownX + v + shownY + w, [Edit(|u + x + v|, y, shownY), Edit(|u|, x, shownX)], 0)
            != Some(u + x + v + y + w)
  {
    var masked, t := u + shownX + v + shownY + w, u + x + v + y + w;
    var e1, e2 := Edit(|u + x + v|, y, shownY), Edit(|u|, x, shownX);
    ReplayTwo(masked, e1, e2);
    var once := ReplaceRange(masked, e1.start, |shownY|, y);
    if once.Some? {
      var k := |u| + |shownX| - 1;
      assert once.value[k] == masked[k] == shownX[|shownX| - 1];
      var twice := ReplaceRange(once.value, e2.start + e1.Shrinks(), |shownX|, x);
      if twice.Some? {
        BehindRange(once.value, e2.start + e1.Shrinks(), |shownX|, x, k);
        assert t[|u| + |x| - 1] == x[|x| - 1];
      }
    }
  }

  /** The failing family: whatever surrounds them and however short the address, an SSN to the
      right of an e-mail address is masked first, and unmasking does not restore the text. */
  lemma {:induction false} SsnAfterEmailIsNotRestored(ssns: Pattern, emails: Pattern, u: Text, email: Text,
                                                      v: Text, ssn: Text, w: Text)
    requires ssns.replacement == "[SSN]" && emails.replacement == "[EMAIL]"
    requires FoundInReverse(ssns, emails, u, email, v, ssn, w)
    requires |ssn| == 11 && ssn[0] != '[' && email != [] && email[0] != '['
    ensures AllLawful([ssns, emails])
    ensures var t := u + email + v + ssn + w;
            Replay(Masked([ssns, emails], t), MaskLog([ssns, emails], t), 0) != Some(t)
  {
    var t := u + email + v + ssn + w;
    ReverseLog(ssns, emails, u, email, v, ssn, w);
    MaskLogIsValid([ssns, emails], t);
    TwoInReverse(Edit(|u + email + v|, ssn, "[SSN]"), Edit(|u|, email, "[EMAIL]"));
    ReplayRestoresIff(t, MaskLog([ssns, emails], t));
  }

  /** The other one: an e-mail address of any length to the right of a phone number. */
  lemma {:induction false} EmailAfterPhoneIsNotRestored(emails: Pattern, phones: Pattern,
                                     u: Text, phone: Text, v: Text, email: Text, w: Text)
    requires emails.replacement == "[EMAIL]" && phones.replacement == "[PHONE]"
    requires FoundInReverse(emails, phones, u, phone, v, email, w)
    requires |phone| >= 10 && phone[0] != '[' && phone[|phone| - 1] != ']' && email != [] && email[0] != '['
    ensures AllLawful([emails, phones])
    ensures var t := u + phone + v + email + w;
            Replay(Masked([emails, phones], t), MaskLog([emails, phones], t), 0) != Some(t)
  {
    var t := u + phone + v + email + w;
    ReverseLog(emails, phones, u, phone, v, email, w);
    if |email| < 7 {
      GrownIsLost(u, phone, v, email, w, "[PHONE]", "[EMAIL]");
    } else {
      MaskLogIsValid([emails, phones], t);
      TwoInReverse(Edit(|u + phone + v|, email, "[EMAIL]"), Edit(|u|, phone, "[PHONE]"));
      ReplayRestoresIff(t, MaskLog([emails, phones], t));
    }
  }

  // ------------------------------------------------------------------- the masker

  // The match is shorter than its placeholder, so `end - start - placeholder.len()`
  // goes below zero.
  ghost predicate Underflows(log: Log) {
    exists i :: 0 <= i < |log| && log[i].Shrinks() < 0
  }

  // A pass under way: the log so far, and the pass that remains, make up the whole.
  ghost predicate Pending(placeholder: Text, masked: Text, log: Log, ranges: seq<Range>, offset: int, from: int,
                          total: Log, result: Text)
  {
    && offset <= from && InOrder(ranges, from, |masked| + offset)
    && log + PassLog(masked, ranges, placeholder, offset, from) == total
    && Valid(masked, PassLog(masked, ranges, placeholder, offset, from))
    && DoAll(masked, PassLog(masked, ranges, placeholder, offset, from)) == result
  }

  lemma {:induction false} PendingStep(placeholder: Text, masked: Text, log: Log, ranges: seq<Range>, i: nat,
                                       offset: int, from: int,
                    total: Log, result: Text)
    requires i < |ranges| && Pending(placeholder, masked, log, ranges[i..], offset, from, total, result)
    ensures offset <= ranges[i].start <= ranges[i].end <= |masked| + offset
    ensures var e := EditOf(masked, ranges[i], placeholder, offset);
            && |log| < |total| && total[|log|] == e
            && Pending(placeholder, Do(masked, e), log + [e], ranges[i + 1..], offset + e.Shrinks(), ranges[i].end,
                       total, result)
  {
    var now, later := ranges[i..], ranges[i + 1..];
    assert now[0] == ranges[i] && now[1..] == later;
    RangesBounded(now, from, |masked| + offset);
    var e := EditOf(masked, ranges[i], placeholder, offset);
    var after := PassLog(Do(masked, e), later, placeholder, offset + e.Shrinks(), ranges[i].end);
    var rest := PassLog(masked, now, placeholder, offset, from);
    assert rest == [e] + after && rest[1..] == after;
    Concat3(log, [e], after);
  }

  // The pattern at i, and the patterns after it.
  lemma {:induction false} MaskStep(ps: seq<Pattern>, i: nat, t: Text, log: Log)
    requires i < |ps| && AllLawful(ps)
    ensures var here, t' := PatternLog(ps[i], t), Redacted(ps[i], t);
            && log + MaskLog(ps[i..], t) == (log + here) + MaskLog(ps[i + 1..], t')
            && (Underflows(here) ==> Underflows(log + MaskLog(ps[i..], t)))
            && Masked(ps[i..], t) == Masked(ps[i + 1..], t')
  {
    PatternLogIsRedaction(ps[i], t);
    var now, later := ps[i..], ps[i + 1..];
    assert now[1..] == later && now[0] == ps[i];
    var here, t' := PatternLog(ps[i], t), Redacted(ps[i], t);
    assert MaskLog(now, t) == here + MaskLog(later, t');
    Concat3(log, here, MaskLog(later, t'));
    if Underflows(here) {
      UnderflowsWithin(log, here, MaskLog(later, t'));
    }
  }

  // replace_range at the match, moved left by the shrinkage so far.
  method ReplaceMatch(masked: Text, m: Range, placeholder: Text, offset: int) returns (next: Text, entry: Edit)
    requires offset <= m.start <= m.end <= |masked| + offset
    ensures entry == EditOf(masked, m, placeholder, offset) && next == Do(masked, entry)
  {
    var start, end := m.start - offset, m.end - offset;
    var original := masked[start..end];
    next := masked[..start] + placeholder + masked[end..];
    entry := Edit(start, original, placeholder);
  }

  // The pass over the matches, in place, with the running offset.
  method ReplaceMatches(text: Text, matches: seq<Range>, placeholder: Text, checked: bool,
                        ghost total: Log, ghost result: Text)
    returns (masked: Text, log: Log, panicked: bool)
    requires Pending(placeholder, text, [], matches, 0, 0, total, result)
    ensures panicked <==> checked && Underflows(total)
    ensures !panicked ==> log == total && masked == result
  {
    masked, log, panicked := text, [], false;
    var offset: int := 0;
    ghost var from := 0;
    var i := 0;
    assert matches[0..] == matches;
    while i < |matches|
      invariant i <= |matches| && Pending(placeholder, masked, log, matches[i..], offset, from, total, result)
      invariant checked ==> !Underflows(log)
    {
      PendingStep(placeholder, masked, log, matches, i, offset, from, total, result);
      var next, entry := ReplaceMatch(masked, matches[i], placeholder, offset);
      if checked && entry.Shrinks() < 0 {
        assert total[|log|] == entry;
        panicked := true;
        return;
      }
      UnderflowsSnoc(log, entry);
      masked, log, offset, from := next, log + [entry], offset + entry.Shrinks(), matches[i].end;
      i := i + 1;
    }
    Concat0(log);
  }

  class PiiMasker {
    const patterns: seq<Pattern>
    // Whether the build checks integer overflow; without checks the offset wraps around,
    // which is the same as computing it with a sign.
    const overflowChecks: bool
    var maskMap: map<string, Log>

    constructor (patterns: seq<Pattern>, overflowChecks: bool)
      ensures this.patterns == patterns && this.overflowChecks == overflowChecks && maskMap == map[]
    {
      this.patterns, this.overflowChecks, maskMap := patterns, overflowChecks, map[];
    }

    // One pattern; `panicked` reports a failed overflow check.
    method MaskPattern(p: Pattern, text: Text) returns (masked: Text, log: Log, panicked: bool)
      requires Lawful(p)
      ensures panicked <==> overflowChecks && Underflows(PatternLog(p, text))
      ensures !panicked ==> log == PatternLog(p, text) && masked == Redact(text, p.find(text), p.replacement, 0)
    {
      PatternLogIsRedaction(p, text);
      var matches := p.find(text);
      assert InOrder(matches, 0, |text|);
      ghost var total := PatternLog(p, text);
      assert [] + total == total;
      masked, log, panicked := ReplaceMatches(text, matches, p.replacement, overflowChecks, total, DoAll(text, total));
    }

    // None is the overflow panic, which leaves the map alone.
    method Mask(text: Text, requestId: string) returns (r: Option<Text>)
      requires AllLawful(patterns)
      modifies this
      ensures r == if overflowChecks && Underflows(MaskLog(patterns, text)) then None else Some(Masked(patterns, text))
      ensures maskMap == if r.None? then old(maskMap) else old(maskMap)[requestId := MaskLog(patterns, text)]
    {
      var masked, replacements: Log := text, [];
      ghost var total, result := MaskLog(patterns, text), Masked(patterns, text);
      assert patterns[0..] == patterns;
      Concat0(total);
      for i := 0 to |patterns|
        invariant maskMap == old(maskMap) && (overflowChecks ==> !Underflows(replacements))
        invariant replacements + MaskLog(patterns[i..], masked) == total
        invariant Masked(patterns[i..], masked) == result
      {
        MaskStep(patterns, i, masked, replacements);
        var next, log, panicked := MaskPattern(patterns[i], masked);
        if panicked {
          return None;
        }
        UnderflowsAppend(replacements, log);
        masked, replacements := next, replacements + log;
      }
      Concat0(replacements);
      maskMap := maskMap[requestId := replacements];
      r := Some(masked);
    }

    // None is the panic of replace_range on a range outside the text.
    method Unmask(maskedText: Text, requestId: string) returns (r: Option<Text>)
      modifies this
      ensures maskMap == old(maskMap) - {requestId}
      ensures r == if requestId in old(maskMap) then Replay(maskedText, old(maskMap)[requestId], 0)
                   else Some(maskedText)
    {
      if requestId !in maskMap {
        return Some(maskedText);
      }
      var log := maskMap[requestId];
      maskMap := maskMap - {requestId};
      var unmasked, offset := maskedText, 0;
      assert log[0..] == log;
      for i := 0 to |log|
        invariant Replay(unmasked, log[i..], offset) == Replay(maskedText, log, 0)
      {
        var e := log[i];
        assert log[i..][1..] == log[i + 1..];
        var replaced := ReplaceRange(unmasked, e.start + offset, |e.placeholder|, e.original);
        if replaced.None? {
          return None;
        }
        unmasked := replaced.value;
        offset := offset + |e.original| - |e.placeholder|;
      }
      r := Some(unmasked);
    }
  }

  lemma {:induction false} UnderflowsSnoc(a: Log, e: Edit)
    ensures Underflows(a + [e]) <==> Underflows(a) || e.Shrinks() < 0
  {
    UnderflowsAppend(a, [e]);
    assert [e][0] == e;
  }

  lemma {:induction false} UnderflowsAppend(a: Log, b: Log)
    ensures Underflows(a + b) <==> Underflows(a) || Underflows(b)
  {
    assert forall i | 0 <= i < |b| :: (a + b)[|a| + i] == b[i];
    assert forall i | 0 <= i < |a| :: (a + b)[i] == a[i];
    if Underflows(b) {
      var i :| 0 <= i < |b| && b[i].Shrinks() < 0;
      assert (a + b)[|a| + i].Shrinks() < 0;
    }
  }

  lemma {:induction false} UnderflowsWithin(a: Log, b: Log, c: Log)
    requires Underflows(b)
    ensures Underflows(a + (b + c))
  {
    UnderflowsAppend(b, c);
    UnderflowsAppend(a, b + c);
  }

  // The hypotheses under which the order of the log decides.
  ghost predicate Decided(ps: seq<Pattern>, t: Text)
    requires AllLawful(ps)
  {
    TellingPatterns(ps) && Disjoint(MaskLog(ps, t)) && Measured(MaskLog(ps, t))
  }

  lemma {:induction false} RoundTripCases(ps: seq<Pattern>, t: Text)
    requires AllLawful(ps)
    ensures Increasing(MaskLog(ps, t), 0) ==> Replay(Masked(ps, t), MaskLog(ps, t), 0) == Some(t)
    ensures Decided(ps, t) ==>
              (Replay(Masked(ps, t), MaskLog(ps, t), 0) == Some(t) <==> Neutral(MaskLog(ps, t)))
  {
    MaskLogIsValid(ps, t);
    if Increasing(MaskLog(ps, t), 0) {
      ReplayRestoresIncreasing(t, MaskLog(ps, t), 0);
    }
    if Decided(ps, t) {
      MaskRoundTripIff(ps, t);
    }
  }

  /** Masking and unmasking one request through the masker. Unless an overflow check fails, the
      log is gone afterwards; the text comes back whenever the starts run left to right; and for
      telling patterns, disjoint matches and a measured log it comes back iff the log is neutral. */
  method RoundTrip(m: PiiMasker, text: Text, id: string) returns (masked: Option<Text>, r: Option<Text>)
    requires AllLawful(m.patterns)
    modifies m
    ensures masked.None? <==> m.overflowChecks && Underflows(MaskLog(m.patterns, text))
    ensures m.maskMap == if masked.None? then old(m.maskMap) else old(m.maskMap) - {id}
    ensures masked.Some? && Increasing(MaskLog(m.patterns, text), 0) ==> r == Some(text)
    ensures masked.Some? && Decided(m.patterns, text) ==> (r == Some(text) <==> Neutral(MaskLog(m.patterns, text)))
  {
    RoundTripCases(m.patterns, text);
    masked := m.Mask(text, id);
    if masked.None? {
      return masked, None;
    }
    r := m.Unmask(masked.value, id);
  }
}
