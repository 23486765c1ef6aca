/**
 Logs of edits in place: text in which ranges are replaced one after the other, each edit
 recorded with the place where it was made and the text that it hid. A log can be undone
 backwards, or replayed forwards with a running offset as unmasking does.
 */
module EditLogs {
  import opened Wrappers
  import opened Sequences

  type Text = seq<char>

  // One log entry. The end of the replaced range is start + |original|.
  datatype Edit = Edit(start: int, original: Text, placeholder: Text) {
    // How much shorter the text became.
    function Shrinks(): int {
      |original| - |placeholder|
    }
  }

  type Log = seq<Edit>

  // ------------------------------------------------------------------ single edits

  // String::replace_range, which panics on a range outside the text.
  function ReplaceRange(t: Text, at: int, len: nat, text: Text): Option<Text> {
    if 0 <= at <= at + len <= |t| then Some(t[..at] + text + t[at + len..]) else None
  }

  ghost predicate Fits(t: Text, e: Edit) {
    0 <= e.start <= e.start + |e.original| <= |t| && t[e.start..e.start + |e.original|] == e.original
  }

  ghost function Do(t: Text, e: Edit): Text
    requires Fits(t, e)
  {
    t[..e.start] + e.placeholder + t[e.start + |e.original|..]
  }

  ghost predicate Valid(t: Text, log: Log)
    decreases |log|
  {
    log == [] || (Fits(t, log[0]) && Valid(Do(t, log[0]), log[1..]))
  }

  ghost function DoAll(t: Text, log: Log): Text
    requires Valid(t, log)
    decreases |log|
  {
    if log == [] then t else DoAll(Do(t, log[0]), log[1..])
  }

  lemma {:induction false} ValidAppend(t: Text, a: Log, b: Log)
    requires Valid(t, a) && Valid(DoAll(t, a), b)
    ensures Valid(t, a + b) && DoAll(t, a + b) == DoAll(DoAll(t, a), b)
    decreases |a|
  {
    if a == [] {
      assert a + b == b;
    } else {
      assert (a + b)[1..] == a[1..] + b;
      ValidAppend(Do(t, a[0]), a[1..], b);
    }
  }

  // --------------------------------------------------------------- undoing backwards

  function Undo(t: Text, e: Edit): Option<Text> {
    ReplaceRange(t, e.start, |e.placeholder|, e.original)
  }

  function UndoBackwards(t: Text, log: Log): Option<Text>
    decreases |log|
  {
    if log == [] then Some(t)
    else match UndoBackwards(t, log[1..])
      case None => None
      case Some(t') => Undo(t', log[0])
  }

  lemma {:induction false} UndoInverts(t: Text, e: Edit)
    requires Fits(t, e)
    ensures Undo(Do(t, e), e) == Some(t)
  {
    var t' := Do(t, e);
    assert t'[..e.start] == t[..e.start];
    assert t'[e.start + |e.placeholder|..] == t[e.start + |e.original|..];
    assert t == t[..e.start] + e.original + t[e.start + |e.original|..];
  }

  /** The log is a faithful undo log for any text and any patterns: undoing it from the last
      entry to the first restores the text. */
  lemma {:induction false} BackwardsRestores(t: Text, log: Log)
    requires Valid(t, log)
    ensures UndoBackwards(DoAll(t, log), log) == Some(t)
    decreases |log|
  {
    if log != [] {
      BackwardsRestores(Do(t, log[0]), log[1..]);
      UndoInverts(t, log[0]);
    }
  }

  // ---------------------------------------------------------- replaying forwards

  // Every edit starts behind the placeholder of the one before.
  ghost predicate Increasing(log: Log, from: int) {
    log == [] || (from <= log[0].start && Increasing(log[1..], log[0].start + |log[0].placeholder|))
  }

  // unmask: None is the panic on a range outside the text.
  function Replay(t: Text, log: Log, offset: int): Option<Text>
    decreases |log|
  {
    if log == [] then Some(t)
    else match ReplaceRange(t, log[0].start + offset, |log[0].placeholder|, log[0].original)
      case None => None
      case Some(t') => Replay(t', log[1..], offset + log[0].Shrinks())
  }

  function Shift(log: Log, delta: int): (r: Log)
    ensures |r| == |log|
  {
    if log == [] then [] else [log[0].(start := log[0].start + delta)] + Shift(log[1..], delta)
  }

  lemma ShiftTail(log: Log, delta: int)
    requires log != []
    ensures Shift(log, delta)[0] == log[0].(start := log[0].start + delta)
    ensures Shift(log, delta)[1..] == Shift(log[1..], delta)
  {
  }

  lemma {:induction false} ShiftAt(log: Log, delta: int, i: nat)
    requires i < |log|
    ensures Shift(log, delta)[i] == log[i].(start := log[i].start + delta)
  {
    if i > 0 {
      ShiftTail(log, delta);
      ShiftAt(log[1..], delta, i - 1);
      assert Shift(log, delta)[i] == Shift(log, delta)[1..][i - 1];
    }
  }

  lemma {:induction false} ShiftTwice(log: Log, a: int, b: int)
    ensures Shift(Shift(log, a), b) == Shift(log, a + b)
  {
    if log != [] {
      ShiftTail(log, a);
      ShiftTail(Shift(log, a), b);
      ShiftTwice(log[1..], a, b);
    }
  }

  lemma {:induction false} ReplayShift(t: Text, log: Log, offset: int, delta: int)
    ensures Replay(t, Shift(log, delta), offset) == Replay(t, log, offset + delta)
    decreases |log|
  {
    if log != [] {
      ShiftTail(log, delta);
      var e := log[0];
      match ReplaceRange(t, e.start + delta + offset, |e.placeholder|, e.original)
      case None =>
      case Some(t') => ReplayShift(t', log[1..], offset + e.Shrinks(), delta);
    }
  }

  ghost predicate Beyond(log: Log, from: int) {
    forall i | 0 <= i < |log| :: from <= log[i].start
  }

  // An edit behind a prefix, seen from behind the prefix.
  lemma {:induction false} DoBehind(p: Text, s: Text, e: Edit, e': Edit)
    requires e.start >= |p| && e' == e.(start := e.start - |p|)
    ensures Fits(p + s, e) <==> Fits(s, e')
    ensures Fits(s, e') ==> Do(p + s, e) == p + Do(s, e')
  {
    var n := |e.original|;
    if e.start + n <= |p + s| {
      assert s[e'.start..e'.start + n] == (p + s)[e.start..e.start + n];
    }
    if Fits(s, e') {
      var left, right := s[..e'.start], s[e'.start + n..];
      assert (p + s)[..e.start] == p + left && (p + s)[e.start + n..] == right;
      Concat3(p, left, e.placeholder);
      Concat3(p, left + e.placeholder, right);
    }
  }

  // Edits behind a prefix leave the prefix alone and act on what follows it.
  lemma {:induction false} ActsOnSuffix(p: Text, s: Text, log: Log)
    requires Beyond(log, |p|) && Valid(p + s, log)
    ensures Valid(s, Shift(log, -|p|)) && DoAll(p + s, log) == p + DoAll(s, Shift(log, -|p|))
    decreases |log|
  {
    if log != [] {
      var e' := Shift(log, -|p|)[0];
      DoBehind(p, s, log[0], e');
      ShiftTail(log, -|p|);
      ActsOnSuffix(p, Do(s, e'), log[1..]);
    }
  }

  lemma {:induction false} ActsBehind(p: Text, s: Text, log: Log)
    requires Valid(s, log)
    ensures Valid(p + s, Shift(log, |p|)) && DoAll(p + s, Shift(log, |p|)) == p + DoAll(s, log)
    decreases |log|
  {
    if log != [] {
      DoBehind(p, s, Shift(log, |p|)[0], log[0]);
      ShiftTail(log, |p|);
      ActsBehind(p, Do(s, log[0]), log[1..]);
    }
  }

  /** When all later edits lie behind the first placeholder, replaying the first entry leaves
      the text with only the later edits done, moved by the first one's shrinkage. */
  lemma {:induction false} FirstReplayed(t: Text, log: Log)
    requires log != [] && Valid(t, log) && Beyond(log[1..], log[0].start + |log[0].placeholder|)
    ensures var e := log[0]; var later := Shift(log[1..], e.Shrinks());
            && Valid(t, later)
            && ReplaceRange(DoAll(t, log), e.start, |e.placeholder|, e.original) == Some(DoAll(t, later))
  {
    var e := log[0];
    var p, s := t[..e.start], t[e.start + |e.original|..];
    var masked, plain := p + e.placeholder, p + e.original;
    assert t == plain + s && Do(t, e) == masked + s;
    ActsOnSuffix(masked, s, log[1..]);
    var inner := Shift(log[1..], -|masked|);
    ActsBehind(plain, s, inner);
    ShiftTwice(log[1..], -|masked|, |plain|);
    assert Shift(inner, |plain|) == Shift(log[1..], e.Shrinks());
    assert Valid(plain + s, Shift(log[1..], e.Shrinks()));
    SwapMiddle(p, e.placeholder, e.original, DoAll(s, inner));
  }

  lemma {:induction false} SwapMiddle(p: Text, a: Text, b: Text, s: Text)
    ensures ReplaceRange((p + a) + s, |p|, |a|, b) == Some((p + b) + s)
  {
    var t := (p + a) + s;
    assert t[..|p|] == p && t[|p| + |a|..] == s;
  }

  lemma {:induction false} ReplayFirst(t: Text, log: Log)
    requires log != [] && Valid(t, log) && Beyond(log[1..], log[0].start + |log[0].placeholder|)
    ensures var later := Shift(log[1..], log[0].Shrinks());
            && Valid(t, later)
            && Replay(DoAll(t, log), log, 0) == Replay(DoAll(t, later), later, 0)
  {
    var e := log[0];
    FirstReplayed(t, log);
    ReplayShift(DoAll(t, Shift(log[1..], e.Shrinks())), log[1..], 0, e.Shrinks());
  }

  lemma {:induction false} IncreasingBeyond(log: Log, from: int)
    requires Increasing(log, from)
    ensures Beyond(log, from)
  {
    if log != [] {
      IncreasingBeyond(log[1..], log[0].start + |log[0].placeholder|);
      assert forall i | 0 < i < |log| :: log[i] == log[1..][i - 1];
    }
  }

  lemma {:induction false} IncreasingShift(log: Log, from: int, delta: int)
    requires Increasing(log, from)
    ensures Increasing(Shift(log, delta), from + delta)
  {
    if log != [] {
      ShiftTail(log, delta);
      IncreasingShift(log[1..], log[0].start + |log[0].placeholder|, delta);
    }
  }

  /** Forward replay restores the text whenever the recorded starts run left to right, whatever
      the lengths of matches and placeholders. */
  lemma {:induction false} ReplayRestoresIncreasing(t: Text, log: Log, from: int)
    requires Valid(t, log) && Increasing(log, from)
    ensures Replay(DoAll(t, log), log, 0) == Some(t)
    decreases |log|
  {
    if log != [] {
      var e := log[0];
      IncreasingBeyond(log[1..], e.start + |e.placeholder|);
      ReplayFirst(t, log);
      IncreasingShift(log[1..], e.start + |e.placeholder|, e.Shrinks());
      ReplayRestoresIncreasing(t, Shift(log[1..], e.Shrinks()), e.start + |e.original|);
    }
  }
}
