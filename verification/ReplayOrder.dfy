/**
 Exactly when a forward replay of a log restores the text. Replay looks every edit up at its
 recorded start plus the shrinkage undone so far, so an edit is found only as far as the edits
 that were made out of order around it cancel out.
 */
module ReplayOrder {
  import opened Wrappers
  import opened Sequences
  import opened EditLogs

  // The placeholder shows: it starts with another character than what it hides.
  ghost predicate Telling(e: Edit) {
    e.original != [] && e.placeholder != [] && e.original[0] != e.placeholder[0]
  }

  ghost predicate AllTelling(log: Log) {
    forall i | 0 <= i < |log| :: Telling(log[i])
  }

  // No edit of `log` touches the placeholder that starts at `pos`; edits left of it move it.
  ghost predicate Clears(pos: int, len: nat, log: Log)
    decreases |log|
  {
    log == [] ||
    (if log[0].start + |log[0].original| <= pos then Clears(pos - log[0].Shrinks(), len, log[1..])
     else pos + len <= log[0].start && Clears(pos, len, log[1..]))
  }

  // No match overlaps an earlier placeholder.
  ghost predicate Disjoint(log: Log) {
    log == [] || (Clears(log[0].start, |log[0].placeholder|, log[1..]) && Disjoint(log[1..]))
  }

  ghost predicate Sorted(log: Log) {
    forall i, j | 0 <= i < j < |log| :: log[i].start < log[j].start
  }

  // The later edit j was made no further right than the earlier edit i.
  ghost predicate Overtakes(log: Log, i: int, j: int) {
    0 <= i < j < |log| && log[j].start <= log[i].start
  }

  // An edit that lengthened the text is not overtaken, and one that kept its length is not
  // overtaken by one that lengthened it.
  ghost predicate Measured(log: Log) {
    forall i, j | Overtakes(log, i, j) :: log[i].Shrinks() > 0 || (log[i].Shrinks() == 0 && log[j].Shrinks() >= 0)
  }

  // Only edits that kept the length of the text are out of order.
  ghost predicate Neutral(log: Log) {
    forall i, j | Overtakes(log, i, j) :: log[i].Shrinks() == 0 && log[j].Shrinks() == 0
  }

  ghost predicate Leftmost(log: Log, m: nat) {
    m < |log| && forall j | 0 <= j < |log| && j != m :: log[m].start < log[j].start
  }

  ghost predicate Level(log: Log) {
    forall i | 0 <= i < |log| :: log[i].Shrinks() == 0
  }

  function Total(log: Log): int {
    if log == [] then 0 else log[0].Shrinks() + Total(log[1..])
  }

  lemma {:induction false} ClearsSides(pos: int, len: nat, log: Log)
    requires Clears(pos, len, log) && AllTelling(log)
    ensures Beyond(log, pos + len) || exists j :: 0 <= j < |log| && log[j].start < pos
    decreases |log|
  {
    if log != [] {
      assert Telling(log[0]);
      assert forall i | 0 < i < |log| :: log[i] == log[1..][i - 1];
      if log[0].start + |log[0].original| <= pos {
        assert log[0].start < pos;
      } else {
        ClearsSides(pos, len, log[1..]);
        if !Beyond(log[1..], pos + len) {
          var j :| 0 <= j < |log| - 1 && log[1..][j].start < pos;
          assert log[j + 1].start < pos;
        }
      }
    }
  }

  lemma {:induction false} FindLeftmost(log: Log) returns (m: nat)
    requires log != [] && Disjoint(log) && AllTelling(log)
    ensures Leftmost(log, m) && Beyond(log[m + 1..], log[m].start + |log[m].placeholder|)
    decreases |log|
  {
    var rest := log[1..];
    assert forall i | 0 < i < |log| :: log[i] == rest[i - 1];
    assert Telling(log[0]);
    ClearsSides(log[0].start, |log[0].placeholder|, rest);
    if Beyond(rest, log[0].start + |log[0].placeholder|) {
      return 0;
    }
    var j :| 0 <= j < |rest| && rest[j].start < log[0].start;
    var m' := FindLeftmost(rest);
    m := m' + 1;
    assert rest[m'].start <= rest[j].start;
    assert rest[m' + 1..] == log[m + 1..];
  }

  lemma {:induction false} ClearsShift(pos: int, len: nat, log: Log, delta: int)
    requires Clears(pos, len, log)
    ensures Clears(pos + delta, len, Shift(log, delta))
    decreases |log|
  {
    if log != [] {
      ShiftTail(log, delta);
      if log[0].start + |log[0].original| <= pos {
        ClearsShift(pos - log[0].Shrinks(), len, log[1..], delta);
      } else {
        ClearsShift(pos, len, log[1..], delta);
      }
    }
  }

  lemma {:induction false} DisjointShift(log: Log, delta: int)
    requires Disjoint(log)
    ensures Disjoint(Shift(log, delta))
  {
    if log != [] {
      ShiftTail(log, delta);
      ClearsShift(log[0].start, |log[0].placeholder|, log[1..], delta);
      DisjointShift(log[1..], delta);
    }
  }

  lemma {:induction false} DisjointSuffix(log: Log, n: nat)
    requires Disjoint(log) && n <= |log|
    ensures Disjoint(log[n..])
  {
    if n > 0 {
      DisjointSuffix(log[1..], n - 1);
      assert log[1..][n - 1..] == log[n..];
    } else {
      assert log[0..] == log;
    }
  }

  lemma {:induction false} MeasuredSuffix(log: Log, n: nat)
    requires Measured(log) && n <= |log|
    ensures Measured(log[n..])
  {
    forall i, j | Overtakes(log[n..], i, j)
      ensures log[n..][i].Shrinks() > 0 || (log[n..][i].Shrinks() == 0 && log[n..][j].Shrinks() >= 0)
    {
      assert Overtakes(log, n + i, n + j);
    }
  }

  // ---- a leftmost edit that replay misses

  lemma {:induction false} UntouchedByEdits(t: Text, log: Log, q: nat)
    requires Valid(t, log) && q < |t| && Beyond(log, q + 1)
    ensures q < |DoAll(t, log)| && DoAll(t, log)[q] == t[q]
    decreases |log|
  {
    if log != [] {
      UntouchedByEdits(Do(t, log[0]), log[1..], q);
    }
  }

  // At the start of the leftmost edit: the first hidden character before, the first
  // character of the placeholder after.
  lemma {:induction false} MaskedAtLeftmost(t: Text, log: Log, m: nat)
    requires Valid(t, log) && Leftmost(log, m) && Telling(log[m])
    ensures var q := log[m].start;
            && 0 <= q < |t| && t[q] == log[m].original[0]
            && q < |DoAll(t, log)| && DoAll(t, log)[q] == log[m].placeholder[0]
    decreases |log|
  {
    var e := log[0];
    assert forall i | 0 < i < |log| :: log[i] == log[1..][i - 1];
    if m == 0 {
      assert t[e.start..e.start + |e.original|][0] == t[e.start];
      UntouchedByEdits(Do(t, e), log[1..], e.start);
    } else {
      assert e.start > log[m].start;
      MaskedAtLeftmost(Do(t, e), log[1..], m - 1);
    }
  }

  // Every replacement of the replay happens behind q.
  ghost predicate ReplaysBehind(log: Log, offset: int, q: int)
    decreases |log|
  {
    log == [] || (log[0].start + offset > q && ReplaysBehind(log[1..], offset + log[0].Shrinks(), q))
  }

  lemma {:induction false} ReplaysBehindAppend(a: Log, b: Log, offset: int, q: int)
    requires ReplaysBehind(a, offset, q) && ReplaysBehind(b, offset + Total(a), q)
    ensures ReplaysBehind(a + b, offset, q)
    decreases |a|
  {
    if a == [] {
      Concat0(b);
    } else {
      assert (a + b)[1..] == a[1..] + b;
      ReplaysBehindAppend(a[1..], b, offset + a[0].Shrinks(), q);
    }
  }

  lemma {:induction false} UntouchedByReplay(t: Text, log: Log, offset: int, q: nat)
    requires q < |t| && ReplaysBehind(log, offset, q)
    ensures Replay(t, log, offset).Some? ==>
              q < |Replay(t, log, offset).value| && Replay(t, log, offset).value[q] == t[q]
    decreases |log|
  {
    if log != [] {
      match ReplaceRange(t, log[0].start + offset, |log[0].placeholder|, log[0].original)
      case None =>
      case Some(t') => UntouchedByReplay(t', log[1..], offset + log[0].Shrinks(), q);
    }
  }

  // The same edits, some looked up further right.
  ghost predicate Pushed(log: Log, late: Log) {
    && |late| == |log|
    && forall i | 0 <= i < |log| :: late[i].start >= log[i].start && late[i] == log[i].(start := late[i].start)
  }

  lemma {:induction false} PushedTotal(log: Log, late: Log)
    requires Pushed(log, late)
    ensures Total(late) == Total(log)
  {
    if log != [] {
      assert late[0].Shrinks() == log[0].Shrinks();
      PushedTail(log, late);
      PushedTotal(log[1..], late[1..]);
    }
  }

  lemma {:induction false} PushedTail(log: Log, late: Log)
    requires log != [] && Pushed(log, late)
    ensures Pushed(log[1..], late[1..])
  {
    assert forall i | 0 <= i < |log| - 1 :: log[1..][i] == log[i + 1] && late[1..][i] == late[i + 1];
  }

  // Edits that do not lengthen the text are looked up behind their starts.
  lemma {:induction false} ShrinkingReplaysBehind(log: Log, late: Log, offset: int, q: int)
    requires Pushed(log, late) && offset >= 0 && Beyond(log, q + 1)
    requires forall i | 0 <= i < |log| :: log[i].Shrinks() >= 0
    ensures ReplaysBehind(late, offset, q) && Total(log) >= 0
    decreases |log|
  {
    if log != [] {
      PushedTail(log, late);
      assert forall i | 0 < i < |log| :: log[i] == log[1..][i - 1];
      assert log[0].start >= q + 1 && late[0].start >= log[0].start && log[0].Shrinks() >= 0;
      ShrinkingReplaysBehind(log[1..], late[1..], offset + log[0].Shrinks(), q);
    }
  }

  // Edits all behind a place are looked up behind it, although some lengthen the text.
  lemma {:induction false} MeasuredReplaysBehind(log: Log, late: Log, from: int, offset: int, q: int)
    requires Disjoint(log) && AllTelling(log) && Measured(log) && Pushed(log, late)
    requires Beyond(log, from) && from + offset > q
    ensures ReplaysBehind(late, offset, q)
    decreases |log|
  {
    if log != [] {
      var e, rest := log[0], log[1..];
      PushedTail(log, late);
      MeasuredSuffix(log, 1);
      assert forall i | 0 < i < |log| :: log[i] == rest[i - 1];
      assert e.start >= from && late[0].start >= e.start && late[0].Shrinks() == e.Shrinks();
      if e.Shrinks() >= 0 {
        MeasuredReplaysBehind(rest, late[1..], from, offset + e.Shrinks(), q);
      } else {
        BehindGrowing(log);
        MeasuredReplaysBehind(rest, late[1..], e.start + |e.placeholder|, offset + e.Shrinks(), q);
      }
    }
  }

  lemma {:induction false} BehindGrowing(log: Log)
    requires log != [] && Disjoint(log) && AllTelling(log) && Measured(log) && log[0].Shrinks() < 0
    ensures Beyond(log[1..], log[0].start + |log[0].placeholder|)
  {
    ClearsSides(log[0].start, |log[0].placeholder|, log[1..]);
    forall j | 0 <= j < |log| - 1
      ensures log[1..][j].start > log[0].start
    {
      assert !Overtakes(log, 0, j + 1);
    }
  }

  // Everything before the leftmost edit was overtaken by it.
  lemma {:induction false} BeforeLeftmost(log: Log, m: nat)
    requires Leftmost(log, m) && Measured(log)
    ensures forall i | 0 <= i < m :: log[i].Shrinks() > 0 || (log[i].Shrinks() == 0 && log[m].Shrinks() >= 0)
    ensures Beyond(log[..m], log[m].start + 1)
  {
    forall i | 0 <= i < m
      ensures Overtakes(log, i, m)
    {
    }
  }

  // Replay up to an edit, at it, and from it on.
  lemma {:induction false} ReplaysBehindAround(a: Log, e: Edit, b: Log, offset: int, q: int)
    requires ReplaysBehind(a, offset, q) && e.start + offset + Total(a) > q
    requires ReplaysBehind(b, offset + Total(a) + e.Shrinks(), q)
    ensures ReplaysBehind(a + ([e] + b), offset, q)
  {
    assert ([e] + b)[1..] == b;
    ReplaysBehindAppend(a, [e] + b, offset, q);
  }

  lemma {:induction false} LateReplaysBehind(a: Log, a': Log, e: Edit, e': Edit, b: Log, b': Log)
    requires Pushed(a, a') && Pushed(b, b') && Telling(e) && e'.Shrinks() == e.Shrinks()
    requires Beyond(a, e.start + 1) && forall i | 0 <= i < |a| :: a[i].Shrinks() >= 0
    requires Disjoint(b) && AllTelling(b) && Measured(b) && Beyond(b, e.start + |e.placeholder|)
    requires e'.start + Total(a) > e.start
    ensures ReplaysBehind(a' + ([e'] + b'), 0, e.start)
  {
    ShrinkingReplaysBehind(a, a', 0, e.start);
    PushedTotal(a, a');
    MeasuredReplaysBehind(b, b', e.start + |e.placeholder|, Total(a) + e.Shrinks(), e.start);
    ReplaysBehindAround(a', e', b', 0, e.start);
  }

  lemma {:induction false} PushedParts(log: Log, late: Log, m: nat)
    requires m < |log| && Pushed(log, late)
    ensures Pushed(log[..m], late[..m]) && Pushed(log[m + 1..], late[m + 1..])
    ensures late[m].Shrinks() == log[m].Shrinks() && late[m].start >= log[m].start
  {
    assert late[m] == log[m].(start := late[m].start);
  }

  lemma Parts(log: Log, m: nat)
    requires m < |log|
    ensures log == log[..m] + ([log[m]] + log[m + 1..])
  {
  }

  lemma {:induction false} BehindLeftmost(log: Log, m: nat)
    requires m < |log| && Disjoint(log) && AllTelling(log) && Measured(log)
    ensures Disjoint(log[m + 1..]) && AllTelling(log[m + 1..]) && Measured(log[m + 1..]) && Telling(log[m])
  {
    DisjointSuffix(log, m + 1);
    MeasuredSuffix(log, m + 1);
    var b := log[m + 1..];
    forall i | 0 <= i < |b|
      ensures Telling(b[i])
    {
      assert b[i] == log[m + 1 + i] && Telling(log[m + 1 + i]);
    }
  }

  /** When replay looks up the leftmost edit too far right, its placeholder stays. */
  lemma {:induction false} LateLeftmostIsLost(t: Text, log: Log, late: Log, m: nat)
    requires Valid(t, log) && AllTelling(log) && Disjoint(log) && Measured(log) && Leftmost(log, m) && Pushed(log, late)
    requires Beyond(log[m + 1..], log[m].start + |log[m].placeholder|)
    requires late[m].start + Total(log[..m]) > log[m].start
    ensures Replay(DoAll(t, log), late, 0) != Some(t)
  {
    BehindLeftmost(log, m);
    MaskedAtLeftmost(t, log, m);
    BeforeLeftmost(log, m);
    PushedParts(log, late, m);
    LateReplaysBehind(log[..m], late[..m], log[m], late[m], log[m + 1..], late[m + 1..]);
    Parts(late, m);
    UntouchedByReplay(DoAll(t, log), late, 0, log[m].start);
  }

  // ---- a leftmost edit that replay finds

  // The log without its leftmost edit, as edits of the text behind that edit.
  ghost function Cut(log: Log, m: nat): Log
    requires m < |log|
  {
    Around(log[..m], log[m], log[m + 1..])
  }

  // The same for the places where replay looks them up: the placeholder is still there.
  ghost function CutReplay(late: Log, m: nat, from: int): Log
    requires m < |late|
  {
    Shift(late[..m], -from) + Shift(late[m + 1..], -from)
  }

  lemma {:induction false} ValidSplit(t: Text, a: Log, b: Log)
    requires Valid(t, a + b)
    ensures Valid(t, a) && Valid(DoAll(t, a), b) && DoAll(t, a + b) == DoAll(DoAll(t, a), b)
    decreases |a|
  {
    if a == [] {
      Concat0(b);
    } else {
      assert (a + b)[1..] == a[1..] + b;
      ValidSplit(Do(t, a[0]), a[1..], b);
    }
  }

  lemma {:induction false} ClearsReaches(pos: int, len: nat, log: Log, m: nat)
    requires Clears(pos, len, log) && m < |log| && Level(log[..m]) && log[m].start < pos
    ensures log[m].start + |log[m].original| <= pos
    decreases |log|
  {
    if m > 0 {
      assert log[..m][0] == log[0];
      assert log[1..][..m - 1] == log[..m][1..];
      ClearsReaches(pos, len, log[1..], m - 1);
    }
  }

  // Level edits before the leftmost one were made behind the text that it hides.
  lemma {:induction false} AheadOfLeftmost(log: Log, m: nat)
    requires Disjoint(log) && Leftmost(log, m) && Level(log[..m])
    ensures Beyond(log[..m], log[m].start + |log[m].original|)
    decreases |log|
  {
    if m > 0 {
      var rest := log[1..];
      assert forall i | 0 < i < |log| :: log[i] == rest[i - 1];
      assert rest[..m - 1] == log[..m][1..];
      AheadOfLeftmost(rest, m - 1);
      ClearsReaches(log[0].start, |log[0].placeholder|, rest, m - 1);
      assert forall i | 0 < i < m :: log[..m][i] == rest[..m - 1][i - 1];
    }
  }

  // Edits before and behind the edit e, as edits of the text behind it.
  ghost function Around(a: Log, e: Edit, b: Log): Log {
    Shift(a, -(e.start + |e.original|)) + Shift(b, -(e.start + |e.placeholder|))
  }

  lemma AroundFirst(e: Edit, b: Log)
    ensures Around([], e, b) == Shift(b, -(e.start + |e.placeholder|))
    ensures [] + ([e] + b) == [e] + b && ([e] + b)[1..] == b
  {
  }

  lemma {:induction false} AroundTail(a: Log, e: Edit, b: Log)
    requires a != []
    ensures Around(a, e, b) != [] && Around(a, e, b)[0] == a[0].(start := a[0].start - (e.start + |e.original|))
    ensures Around(a, e, b)[1..] == Around(a[1..], e, b)
  {
    var x, y := Shift(a, -(e.start + |e.original|)), Shift(b, -(e.start + |e.placeholder|));
    ShiftTail(a, -(e.start + |e.original|));
    var x' := x[1..];
    TailOfAppend(x, y);
    assert (x + y)[1..] == x' + y;
    assert x' + y == Around(a[1..], e, b);
  }

  lemma ClearsLevel(pos: int, len: nat, log: Log)
    requires log != [] && log[0].Shrinks() == 0
    ensures Clears(pos, len, log)
            <==> && (log[0].start + |log[0].original| <= pos || pos + len <= log[0].start)
                 && Clears(pos, len, log[1..])
  {
  }

  lemma {:induction false} ClearsCut(pos: int, len: nat, a: Log, e: Edit, b: Log)
    requires Clears(pos, len, a + ([e] + b)) && Level(a) && e.start < pos
    ensures Clears(pos - (e.start + |e.original|), len, Around(a, e, b))
    decreases |a|
  {
    if a == [] {
      AroundFirst(e, b);
      ClearsShift(pos - e.Shrinks(), len, b, -(e.start + |e.placeholder|));
    } else {
      TailOfAppend(a, [e] + b);
      ClearsLevel(pos, len, a + ([e] + b));
      ClearsCut(pos, len, a[1..], e, b);
      AroundTail(a, e, b);
      ClearsLevel(pos - (e.start + |e.original|), len, Around(a, e, b));
    }
  }

  lemma {:induction false} DisjointCut(a: Log, e: Edit, b: Log)
    requires Disjoint(a + ([e] + b)) && Level(a) && Beyond(a, e.start + 1)
    ensures Disjoint(Around(a, e, b))
    decreases |a|
  {
    if a == [] {
      AroundFirst(e, b);
      DisjointShift(b, -(e.start + |e.placeholder|));
    } else {
      TailOfAppend(a, [e] + b);
      DisjointCut(a[1..], e, b);
      ClearsCut(a[0].start, |a[0].placeholder|, a[1..], e, b);
      AroundTail(a, e, b);
    }
  }

  // How the entries of the cut log come from the whole one.
  lemma {:induction false} CutAt(log: Log, m: nat, i: nat)
    requires m < |log| && i < |log| - 1
    ensures |Cut(log, m)| == |log| - 1
    ensures var k := if i < m then i else i + 1;
            var delta := log[m].start + if i < m then |log[m].original| else |log[m].placeholder|;
            Cut(log, m)[i] == log[k].(start := log[k].start - delta)
  {
    if i < m {
      ShiftAt(log[..m], -(log[m].start + |log[m].original|), i);
    } else {
      ShiftAt(log[m + 1..], -(log[m].start + |log[m].placeholder|), i - m);
    }
  }

  lemma {:induction false} CutReplayAt(late: Log, m: nat, from: int, i: nat)
    requires m < |late| && i < |late| - 1
    ensures |CutReplay(late, m, from)| == |late| - 1
    ensures var k := if i < m then i else i + 1;
            CutReplay(late, m, from)[i] == late[k].(start := late[k].start - from)
  {
    if i < m {
      ShiftAt(late[..m], -from, i);
    } else {
      ShiftAt(late[m + 1..], -from, i - m);
    }
  }

  lemma {:induction false} CutIsMeasured(log: Log, m: nat)
    requires m < |log| && Measured(log) && (m > 0 ==> log[m].Shrinks() >= 0)
    ensures Measured(Cut(log, m))
  {
    var cut := Cut(log, m);
    forall i, j | Overtakes(cut, i, j)
      ensures cut[i].Shrinks() > 0 || (cut[i].Shrinks() == 0 && cut[j].Shrinks() >= 0)
    {
      CutAt(log, m, i);
      CutAt(log, m, j);
      assert Overtakes(log, if i < m then i else i + 1, if j < m then j else j + 1);
    }
  }

  lemma {:induction false} CutIsTelling(log: Log, m: nat)
    requires m < |log| && AllTelling(log)
    ensures AllTelling(Cut(log, m))
  {
    forall i | 0 <= i < |Cut(log, m)|
      ensures Telling(Cut(log, m)[i])
    {
      CutAt(log, m, i);
      assert Telling(log[if i < m then i else i + 1]);
    }
  }

  lemma {:induction false} CutIsPushed(log: Log, late: Log, m: nat)
    requires m < |log| && Pushed(log, late) && (m > 0 ==> log[m].Shrinks() >= 0)
    ensures Pushed(Cut(log, m), CutReplay(late, m, log[m].start + |log[m].placeholder|))
  {
    var from := log[m].start + |log[m].placeholder|;
    var cut, cutLate := Cut(log, m), CutReplay(late, m, from);
    forall i | 0 <= i < |log| - 1
      ensures cutLate[i].start >= cut[i].start && cutLate[i] == cut[i].(start := cutLate[i].start)
    {
      CutAt(log, m, i);
      CutReplayAt(late, m, from, i);
      assert late[if i < m then i else i + 1].start >= log[if i < m then i else i + 1].start;
    }
  }

  // Nothing is out of place in the whole log iff nothing is in the cut one.
  lemma {:induction false} CutKeepsVerdict(log: Log, late: Log, m: nat)
    requires Leftmost(log, m) && Level(log[..m]) && Pushed(log, late) && late[m] == log[m]
    requires m > 0 ==> log[m].Shrinks() >= 0
    ensures var cut, cutLate := Cut(log, m), CutReplay(late, m, log[m].start + |log[m].placeholder|);
            late == log && Neutral(log) <==> cutLate == cut && Neutral(cut)
  {
    var cut, cutLate := Cut(log, m), CutReplay(late, m, log[m].start + |log[m].placeholder|);
    if late == log && Neutral(log) {
      assert m > 0 ==> Overtakes(log, 0, m);
      CutEqual(log, m);
      CutOfNeutral(log, m);
    }
    if cutLate == cut && Neutral(cut) {
      WholeEqual(log, late, m);
      WholeIsNeutral(log, m);
    }
  }

  lemma {:induction false} CutEqual(log: Log, m: nat)
    requires m < |log| && (m > 0 ==> log[m].Shrinks() == 0)
    ensures CutReplay(log, m, log[m].start + |log[m].placeholder|) == Cut(log, m)
  {
    if m == 0 {
      assert log[..0] == [];
    }
  }

  lemma {:induction false} WholeEqual(log: Log, late: Log, m: nat)
    requires m < |log| && Pushed(log, late) && late[m] == log[m] && (m > 0 ==> log[m].Shrinks() >= 0)
    requires CutReplay(late, m, log[m].start + |log[m].placeholder|) == Cut(log, m)
    ensures late == log && (m > 0 ==> log[m].Shrinks() == 0)
  {
    var from := log[m].start + |log[m].placeholder|;
    forall i | 0 <= i < |log|
      ensures late[i] == log[i] && (i < m ==> log[m].Shrinks() == 0)
    {
      if i != m {
        CutAt(log, m, if i < m then i else i - 1);
        CutReplayAt(late, m, from, if i < m then i else i - 1);
      }
    }
    if m > 0 {
      assert late[0] == log[0];
    }
  }

  lemma {:induction false} CutOfNeutral(log: Log, m: nat)
    requires m < |log| && Neutral(log) && (m > 0 ==> log[m].Shrinks() == 0)
    ensures Neutral(Cut(log, m))
  {
    var cut := Cut(log, m);
    forall i, j | Overtakes(cut, i, j)
      ensures cut[i].Shrinks() == 0 && cut[j].Shrinks() == 0
    {
      CutAt(log, m, i);
      CutAt(log, m, j);
      assert Overtakes(log, if i < m then i else i + 1, if j < m then j else j + 1);
    }
  }

  lemma {:induction false} WholeIsNeutral(log: Log, m: nat)
    requires Leftmost(log, m) && Level(log[..m]) && (m > 0 ==> log[m].Shrinks() == 0) && Neutral(Cut(log, m))
    ensures Neutral(log)
  {
    forall i, j | Overtakes(log, i, j)
      ensures log[i].Shrinks() == 0 && log[j].Shrinks() == 0
    {
      if j == m {
        assert log[..m][i] == log[i];
      } else {
        assert i != m;
        OvertakesInCut(log, m, i, j);
      }
    }
  }

  lemma {:induction false} OvertakesInCut(log: Log, m: nat, i: nat, j: nat)
    requires m < |log| && (m > 0 ==> log[m].Shrinks() == 0) && Neutral(Cut(log, m))
    requires Overtakes(log, i, j) && i != m && j != m
    ensures log[i].Shrinks() == 0 && log[j].Shrinks() == 0
  {
    var i', j' := if i < m then i else i - 1, if j < m then j else j - 1;
    CutAt(log, m, i');
    CutAt(log, m, j');
    assert Overtakes(Cut(log, m), i', j');
  }

  // Edits behind a prefix, and then others.
  lemma {:induction false} ActsUpTo(p: Text, s: Text, a: Log, b: Log, n: int)
    requires n == |p| && Valid(p + s, a + b) && Beyond(a, n)
    ensures Valid(s, Shift(a, -n)) && Valid(p + DoAll(s, Shift(a, -n)), b)
    ensures DoAll(p + s, a + b) == DoAll(p + DoAll(s, Shift(a, -n)), b)
  {
    ValidSplit(p + s, a, b);
    ActsOnSuffix(p, s, a);
  }

  // Edits from a leftmost one on.
  lemma {:induction false} ActsFrom(p: Text, s: Text, e: Edit, b: Log)
    requires |p| == e.start && Valid((p + e.original) + s, [e] + b) && Beyond(b, e.start + |e.placeholder|)
    ensures var b' := Shift(b, -(e.start + |e.placeholder|));
            Valid(s, b') && DoAll((p + e.original) + s, [e] + b) == (p + e.placeholder) + DoAll(s, b')
  {
    DoInside(p, e.original, s, e.placeholder);
    DoAllCons((p + e.original) + s, e, b);
    ActsOnSuffix(p + e.placeholder, s, b);
  }

  // The text around a leftmost edit, and the edits behind it.
  lemma {:induction false} CutActs(p: Text, s: Text, a: Log, e: Edit, b: Log, a': Log, b': Log)
    requires |p| == e.start && Valid((p + e.original) + s, a + ([e] + b))
    requires Beyond(a, e.start + |e.original|) && Beyond(b, e.start + |e.placeholder|)
    requires a' == Shift(a, -(e.start + |e.original|)) && b' == Shift(b, -(e.start + |e.placeholder|))
    ensures Valid(s, a' + b')
    ensures DoAll((p + e.original) + s, a + ([e] + b)) == (p + e.placeholder) + DoAll(s, a' + b')
  {
    ActsUpTo(p + e.original, s, a, [e] + b, e.start + |e.original|);
    var s' := DoAll(s, a');
    ActsFrom(p, s', e, b);
    ValidAppend(s, a', b');
  }

  lemma {:induction false} DoAllCons(t: Text, e: Edit, b: Log)
    requires Valid(t, [e] + b)
    ensures Fits(t, e) && Valid(Do(t, e), b) && DoAll(t, [e] + b) == DoAll(Do(t, e), b)
  {
    assert ([e] + b)[1..] == b;
  }

  // The text hidden by a leftmost edit stands in the original text.
  lemma {:induction false} HiddenText(t: Text, a: Log, e: Edit, b: Log) returns (p: Text, s: Text)
    requires Valid(t, a + ([e] + b)) && Beyond(a, e.start + |e.original|)
    ensures |p| == e.start && t == (p + e.original) + s
  {
    ValidSplit(t, a, [e] + b);
    var n := e.start + |e.original|;
    AroundFirst(e, b);
    if a != [] {
      assert Fits(t, a[0]) && a[0].start >= n;
    }
    p, s := t[..e.start], t[n..];
    var shown := t[..n];
    assert t == shown + s;
    ActsOnSuffix(shown, s, a);
    LeftmostFits(shown, DoAll(s, Shift(a, -n)), e);
    assert p == shown[..e.start];
  }

  lemma {:induction false} DoInside(p: Text, original: Text, s: Text, placeholder: Text)
    ensures var e := Edit(|p|, original, placeholder);
            Fits((p + original) + s, e) && Do((p + original) + s, e) == (p + placeholder) + s
  {
    var t := (p + original) + s;
    assert t[..|p|] == p && t[|p|..|p| + |original|] == original && t[|p| + |original|..] == s;
  }

  lemma {:induction false} LeftmostFits(shown: Text, s: Text, e: Edit)
    requires Fits(shown + s, e) && |shown| == e.start + |e.original|
    ensures shown == shown[..e.start] + e.original
    ensures Do(shown + s, e) == (shown[..e.start] + e.placeholder) + s
  {
    assert (shown + s)[e.start..e.start + |e.original|] == shown[e.start..];
    assert (shown + s)[e.start + |e.original|..] == s && (shown + s)[..e.start] == shown[..e.start];
  }

  function Behind(p: Text, r: Option<Text>): Option<Text> {
    if r.Some? then Some(p + r.value) else None
  }

  lemma {:induction false} ReplaceBehind(p: Text, s: Text, at: int, len: nat, text: Text)
    requires at >= |p|
    ensures ReplaceRange(p + s, at, len, text) == Behind(p, ReplaceRange(s, at - |p|, len, text))
  {
    if at + len <= |p + s| {
      var left, right := s[..at - |p|], s[at - |p| + len..];
      assert (p + s)[..at] == p + left && (p + s)[at + len..] == right;
      Concat3(p, left, text);
      Concat3(p, left + text, right);
    }
  }

  // A replay that stays behind a prefix is a replay on what follows it.
  lemma {:induction false} ReplayOnSuffix(p: Text, s: Text, log: Log, offset: int)
    requires ReplaysBehind(log, offset, |p| - 1)
    ensures Replay(p + s, log, offset) == Behind(p, Replay(s, Shift(log, -|p|), offset))
    decreases |log|
  {
    if log != [] {
      var e := log[0];
      ShiftTail(log, -|p|);
      ReplaceBehind(p, s, e.start + offset, |e.placeholder|, e.original);
      match ReplaceRange(s, e.start - |p| + offset, |e.placeholder|, e.original)
      case None =>
      case Some(s') => ReplayOnSuffix(p, s', log[1..], offset + e.Shrinks());
    }
  }

  function ReplayThen(r: Option<Text>, log: Log, offset: int): Option<Text> {
    if r.Some? then Replay(r.value, log, offset) else None
  }

  lemma {:induction false} ReplayAppend(t: Text, a: Log, b: Log, offset: int)
    ensures Replay(t, a + b, offset) == ReplayThen(Replay(t, a, offset), b, offset + Total(a))
    decreases |a|
  {
    if a == [] {
      Concat0(b);
    } else {
      assert (a + b)[0] == a[0] && (a + b)[1..] == a[1..] + b;
      match ReplaceRange(t, a[0].start + offset, |a[0].placeholder|, a[0].original)
      case None =>
      case Some(t') => ReplayAppend(t', a[1..], b, offset + a[0].Shrinks());
    }
  }

  lemma {:induction false} ReplayCons(t: Text, e: Edit, b: Log)
    ensures Replay(t, [e] + b, 0)
            == match ReplaceRange(t, e.start, |e.placeholder|, e.original)
               case None => None
               case Some(t') => Replay(t', b, e.Shrinks())
  {
    assert ([e] + b)[1..] == b;
  }

  // Replay from a leftmost edit on that is looked up where it stands.
  lemma {:induction false} ReplayFrom(p: Text, s: Text, e: Edit, b: Log)
    requires e.start == |p| && ReplaysBehind(b, e.Shrinks(), e.start + |e.original| - 1)
    ensures Replay((p + e.placeholder) + s, [e] + b, 0)
            == Behind(p + e.original, Replay(s, Shift(b, -(e.start + |e.placeholder|)), 0))
  {
    SwapMiddle(p, e.placeholder, e.original, s);
    ReplayCons((p + e.placeholder) + s, e, b);
    ReplayOnSuffix(p + e.original, s, b, e.Shrinks());
    ReplayMoved(s, b, -|p + e.original|, e.Shrinks());
  }

  lemma {:induction false} ReplayMoved(s: Text, log: Log, delta: int, offset: int)
    ensures Replay(s, Shift(log, delta), offset) == Replay(s, Shift(log, delta + offset), 0)
  {
    ReplayShift(s, Shift(log, delta), 0, offset);
    ShiftTwice(log, delta, offset);
  }

  // Replay up to it.
  lemma {:induction false} ReplayUpTo(p: Text, s: Text, a: Log, b: Log, n: int)
    requires n == |p| && Total(a) == 0 && ReplaysBehind(a, 0, n - 1)
    ensures Replay(p + s, a + b, 0) == ReplayThen(Behind(p, Replay(s, Shift(a, -n), 0)), b, 0)
  {
    ReplayAppend(p + s, a, b, 0);
    ReplayOnSuffix(p, s, a, 0);
  }

  lemma {:induction false} ReplayShifted(s: Text, a: Log, b: Log, n: int)
    requires Total(a) == 0
    ensures Replay(s, Shift(a, -n) + Shift(b, -n), 0) == ReplayThen(Replay(s, Shift(a, -n), 0), Shift(b, -n), 0)
  {
    ReplayAppend(s, Shift(a, -n), Shift(b, -n), 0);
    ShiftTotal(a, -n);
  }

  lemma {:induction false} ReplayAround(p: Text, s: Text, e: Edit, a: Log, b: Log, n: int)
    requires e.start == |p| && Total(a) == 0 && n == e.start + |e.placeholder|
    requires ReplaysBehind(a, 0, n - 1) && ReplaysBehind(b, e.Shrinks(), e.start + |e.original| - 1)
    ensures Replay((p + e.placeholder) + s, a + ([e] + b), 0)
            == Behind(p + e.original, Replay(s, Shift(a, -n) + Shift(b, -n), 0))
  {
    ReplayUpTo(p + e.placeholder, s, a, [e] + b, n);
    ReplayShifted(s, a, b, n);
    var first := Replay(s, Shift(a, -n), 0);
    if first.Some? {
      ReplayFrom(p, first.value, e, b);
    }
  }

  lemma {:induction false} ShiftTotal(log: Log, delta: int)
    ensures Total(Shift(log, delta)) == Total(log)
  {
    if log != [] {
      ShiftTail(log, delta);
      ShiftTotal(log[1..], delta);
    }
  }

  lemma {:induction false} LevelTotal(log: Log)
    requires forall i | 0 <= i < |log| :: log[i].Shrinks() >= 0
    ensures Total(log) >= 0 && (Total(log) == 0 ==> Level(log))
  {
    if log != [] {
      assert forall i | 0 <= i < |log| - 1 :: log[1..][i] == log[i + 1];
      LevelTotal(log[1..]);
      assert log[0].Shrinks() >= 0;
      assert forall i | 0 < i < |log| :: log[i] == log[1..][i - 1];
    }
  }

  // A leftmost edit that is looked up where it stands: all depends on the edits behind it.
  lemma {:induction false} FoundLeftmost(t: Text, a: Log, a': Log, e: Edit, b: Log, b': Log, cut: Log,
                                         cutLate: Log) returns (s: Text)
    requires Valid(t, a + ([e] + b)) && Beyond(a, e.start + |e.original|) && Beyond(b, e.start + |e.placeholder|)
    requires Total(a') == 0 && ReplaysBehind(a', 0, e.start + |e.placeholder| - 1)
    requires ReplaysBehind(b', e.Shrinks(), e.start + |e.original| - 1)
    requires cut == Around(a, e, b)
    requires cutLate == Shift(a', -(e.start + |e.placeholder|)) + Shift(b', -(e.start + |e.placeholder|))
    ensures Valid(s, cut)
    ensures Replay(DoAll(t, a + ([e] + b)), a' + ([e] + b'), 0) == Some(t)
            <==> Replay(DoAll(s, cut), cutLate, 0) == Some(s)
  {
    var p: Text;
    p, s := HiddenText(t, a, e, b);
    FoundBehind(p, s, a, a', e, b, b', cut, cutLate);
  }

  lemma {:induction false} FoundBehind(p: Text, s: Text, a: Log, a': Log, e: Edit, b: Log, b': Log, cut: Log,
                                       cutLate: Log)
    requires |p| == e.start && Valid((p + e.original) + s, a + ([e] + b))
    requires Beyond(a, e.start + |e.original|) && Beyond(b, e.start + |e.placeholder|)
    requires Total(a') == 0 && ReplaysBehind(a', 0, e.start + |e.placeholder| - 1)
    requires ReplaysBehind(b', e.Shrinks(), e.start + |e.original| - 1)
    requires cut == Around(a, e, b)
    requires cutLate == Shift(a', -(e.start + |e.placeholder|)) + Shift(b', -(e.start + |e.placeholder|))
    ensures Valid(s, cut)
    ensures Replay(DoAll((p + e.original) + s, a + ([e] + b)), a' + ([e] + b'), 0) == Some((p + e.original) + s)
            <==> Replay(DoAll(s, cut), cutLate, 0) == Some(s)
  {
    CutActs(p, s, a, e, b, Shift(a, -(e.start + |e.original|)), Shift(b, -(e.start + |e.placeholder|)));
    ReplayRestoresBehind(p, s, DoAll(s, cut), e, a', b', cutLate);
  }

  lemma {:induction false} ReplayRestoresBehind(p: Text, s: Text, hidden: Text, e: Edit, a: Log, b: Log, late: Log)
    requires |p| == e.start && Total(a) == 0 && ReplaysBehind(a, 0, e.start + |e.placeholder| - 1)
    requires ReplaysBehind(b, e.Shrinks(), e.start + |e.original| - 1)
    requires late == Shift(a, -(e.start + |e.placeholder|)) + Shift(b, -(e.start + |e.placeholder|))
    ensures Replay((p + e.placeholder) + hidden, a + ([e] + b), 0) == Some((p + e.original) + s)
            <==> Replay(hidden, late, 0) == Some(s)
  {
    ReplayAround(p, hidden, e, a, b, e.start + |e.placeholder|);
    BehindEqual(p + e.original, s, Replay(hidden, late, 0));
  }

  lemma {:induction false} BehindEqual(p: Text, s: Text, r: Option<Text>)
    ensures Behind(p, r) == Some(p + s) <==> r == Some(s)
  {
    if r.Some? && p + r.value == p + s {
      assert r.value == (p + r.value)[|p|..] == s;
    }
  }

  // Level edits are looked up behind a place that they start behind.
  lemma {:induction false} LevelReplaysBehind(a: Log, a': Log, from: int, n: int)
    requires Pushed(a, a') && Level(a) && Beyond(a, from) && (a == [] || n <= from)
    ensures Total(a') == 0 && ReplaysBehind(a', 0, n - 1)
  {
    LevelIsZero(a);
    PushedTotal(a, a');
    if a != [] {
      ShrinkingReplaysBehind(a, a', 0, n - 1);
    }
  }

  lemma {:induction false} ReplaysBehindLeftmost(log: Log, m: nat, b': Log)
    requires AllTelling(log) && Disjoint(log) && Measured(log) && m < |log| && Pushed(log[m + 1..], b')
    requires Beyond(log[m + 1..], log[m].start + |log[m].placeholder|)
    ensures ReplaysBehind(b', log[m].Shrinks(), log[m].start + |log[m].original| - 1)
  {
    var e, b := log[m], log[m + 1..];
    BehindLeftmost(log, m);
    MeasuredReplaysBehind(b, b', e.start + |e.placeholder|, e.Shrinks(), e.start + |e.original| - 1);
  }

  lemma {:induction false} ReplaysAheadOfLeftmost(log: Log, late: Log, m: nat, from: int, n: int)
    requires m < |log| && Pushed(log, late) && Level(log[..m]) && Beyond(log[..m], from) && (m > 0 ==> n <= from)
    ensures Total(late[..m]) == 0 && ReplaysBehind(late[..m], 0, n - 1)
  {
    PushedParts(log, late, m);
    LevelReplaysBehind(log[..m], late[..m], from, n);
  }

  // Replay finds the edit at m where it stands, and all others behind it.
  ghost predicate Finds(log: Log, late: Log, m: nat)
    requires m < |log| == |late|
  {
    var e := log[m];
    && late[m] == e && Total(late[..m]) == 0
    && Beyond(log[..m], e.start + |e.original|) && Beyond(log[m + 1..], e.start + |e.placeholder|)
    && ReplaysBehind(late[..m], 0, e.start + |e.placeholder| - 1)
    && ReplaysBehind(late[m + 1..], e.Shrinks(), e.start + |e.original| - 1)
  }

  // Such an edit leaves the question to the edits behind it.
  lemma {:induction false} CutLeftmost(t: Text, log: Log, late: Log, m: nat, cut: Log, cutLate: Log) returns (s: Text)
    requires m < |log| == |late| && Valid(t, log) && Finds(log, late, m)
    requires cut == Cut(log, m) && cutLate == CutReplay(late, m, log[m].start + |log[m].placeholder|)
    ensures Valid(s, cut)
    ensures Replay(DoAll(t, log), late, 0) == Some(t) <==> Replay(DoAll(s, cut), cutLate, 0) == Some(s)
  {
    Parts(log, m);
    Parts(late, m);
    s := FoundLeftmost(t, log[..m], late[..m], log[m], log[m + 1..], late[m + 1..], cut, cutLate);
  }

  /** Exactly when a replay restores the text, even one that looks some edits up too far right:
      iff it looks none of them up too far right and only length-keeping edits are out of order. */
  lemma {:induction false} LateReplayRestoresIff(t: Text, log: Log, late: Log)
    requires Valid(t, log) && AllTelling(log) && Disjoint(log) && Measured(log) && Pushed(log, late)
    ensures Replay(DoAll(t, log), late, 0) == Some(t) <==> late == log && Neutral(log)
    decreases |log|
  {
    if log != [] {
      var m := FindLeftmost(log);
      LeftmostCases(log, late, m);
      if late[m].start + Total(log[..m]) > log[m].start {
        LateLeftmostIsLost(t, log, late, m);
        LateIsNotNeutral(log, late, m);
      } else {
        var cut, cutLate := Cut(log, m), CutReplay(late, m, log[m].start + |log[m].placeholder|);
        FoundReplays(log, late, m);
        var s := CutLeftmost(t, log, late, m, cut, cutLate);
        CutKeepsHypotheses(log, late, m);
        LateReplayRestoresIff(s, cut, cutLate);
        CutKeepsVerdict(log, late, m);
      }
    }
  }

  lemma {:induction false} FoundReplays(log: Log, late: Log, m: nat)
    requires AllTelling(log) && Disjoint(log) && Measured(log) && Leftmost(log, m) && Pushed(log, late)
    requires Beyond(log[m + 1..], log[m].start + |log[m].placeholder|)
    requires late[m] == log[m] && Level(log[..m]) && (m > 0 ==> log[m].Shrinks() >= 0)
    ensures Finds(log, late, m)
  {
    AheadOfLeftmost(log, m);
    ReplaysAheadOfLeftmost(log, late, m, log[m].start + |log[m].original|, log[m].start + |log[m].placeholder|);
    PushedParts(log, late, m);
    ReplaysBehindLeftmost(log, m, late[m + 1..]);
  }

  // Replay looks the leftmost edit up too far right, or where it stands.
  lemma {:induction false} LeftmostCases(log: Log, late: Log, m: nat)
    requires Leftmost(log, m) && Measured(log) && Pushed(log, late)
    ensures || late[m].start + Total(log[..m]) > log[m].start
            || (late[m] == log[m] && Level(log[..m]) && (m > 0 ==> log[m].Shrinks() >= 0))
  {
    BeforeLeftmost(log, m);
    LevelTotal(log[..m]);
    if m > 0 {
      assert log[..m][0] == log[0];
    }
  }

  lemma {:induction false} CutKeepsHypotheses(log: Log, late: Log, m: nat)
    requires AllTelling(log) && Disjoint(log) && Measured(log) && Leftmost(log, m) && Pushed(log, late)
    requires Level(log[..m]) && (m > 0 ==> log[m].Shrinks() >= 0)
    ensures var cut := Cut(log, m);
            && |cut| < |log| && AllTelling(cut) && Disjoint(cut) && Measured(cut)
            && Pushed(cut, CutReplay(late, m, log[m].start + |log[m].placeholder|))
  {
    CutIsMeasured(log, m);
    CutIsTelling(log, m);
    CutIsPushed(log, late, m);
    Parts(log, m);
    BeforeLeftmost(log, m);
    DisjointCut(log[..m], log[m], log[m + 1..]);
  }

  lemma {:induction false} LateIsNotNeutral(log: Log, late: Log, m: nat)
    requires Leftmost(log, m) && Pushed(log, late) && late[m].start + Total(log[..m]) > log[m].start
    ensures late != log || !Neutral(log)
  {
    if late == log && Neutral(log) {
      forall i | 0 <= i < m
        ensures log[..m][i].Shrinks() == 0
      {
        assert Overtakes(log, i, m);
      }
      LevelIsZero(log[..m]);
    }
  }

  lemma {:induction false} LevelIsZero(log: Log)
    requires Level(log)
    ensures Total(log) == 0
  {
    if log != [] {
      LevelIsZero(log[1..]);
    }
  }

  /** Exactly when unmasking restores the text: for telling edits that never touch an earlier
      placeholder, and a measured log, iff only length-keeping edits are out of order. */
  lemma {:induction false} ReplayRestoresIff(t: Text, log: Log)
    requires Valid(t, log) && AllTelling(log) && Disjoint(log) && Measured(log)
    ensures Replay(DoAll(t, log), log, 0) == Some(t) <==> Neutral(log)
  {
    LateReplayRestoresIff(t, log, log);
  }

  // A log in which an edit that lengthened the text is overtaken.
  const CANCELLING := [Edit(2, "b", "[e"), Edit(5, "cd", "["), Edit(0, "A", "[")]

  /** That the log is measured matters: when an edit that lengthened the text is overtaken, what it
      displaces can cancel out, and replay restores the text although the log is not neutral. */
  lemma {:induction false} UnmeasuredCanCancelOut()
    ensures AllTelling(CANCELLING) && Disjoint(CANCELLING) && !Measured(CANCELLING) && !Neutral(CANCELLING)
    ensures Valid("A-b-cd", CANCELLING) && Replay(DoAll("A-b-cd", CANCELLING), CANCELLING, 0) == Some("A-b-cd")
  {
    CancellingLog();
    CancellingEdits();
    CancellingReplay();
  }

  lemma {:induction false} CancellingLog()
    ensures AllTelling(CANCELLING) && Disjoint(CANCELLING) && !Measured(CANCELLING) && !Neutral(CANCELLING)
  {
    var e2, e3 := Edit(5, "cd", "["), Edit(0, "A", "[");
    assert CANCELLING[1..] == [e2, e3] && [e2, e3][1..] == [e3] && [e3][1..] == [];
    assert Clears(5, 1, [e3]) && Clears(2, 2, [e3]) && Clears(2, 2, [e2, e3]);
    assert Disjoint([e3]) && Disjoint([e2, e3]);
    assert Overtakes(CANCELLING, 0, 2);
  }

  lemma {:induction false} CancellingEdits()
    ensures Valid("A-b-cd", CANCELLING) && DoAll("A-b-cd", CANCELLING) == "[-[e-["
  {
    Swapped("A-", "b", "[e", "-cd", "A-b-cd", "A-[e-cd");
    Swapped("A-[e-", "cd", "[", "", "A-[e-cd", "A-[e-[");
    Swapped("", "A", "[", "-[e-[", "A-[e-[", "[-[e-[");
    ThreeEdits("A-b-cd", "A-[e-cd", "A-[e-[", "[-[e-[", Edit(2, "b", "[e"), Edit(5, "cd", "["), Edit(0, "A", "["));
  }

  lemma {:induction false} CancellingReplay()
    ensures Replay("[-[e-[", CANCELLING, 0) == Some("A-b-cd")
  {
    Swapped("[-", "[e", "b", "-[", "[-[e-[", "[-b-[");
    Swapped("[-b-", "[", "cd", "", "[-b-[", "[-b-cd");
    Swapped("", "[", "A", "-b-cd", "[-b-cd", "A-b-cd");
    ThreeReplays("[-[e-[", "[-b-[", "[-b-cd", "A-b-cd", Edit(2, "b", "[e"), Edit(5, "cd", "["), Edit(0, "A", "["));
  }

  lemma {:induction false} ThreeEdits(t0: Text, t1: Text, t2: Text, t3: Text, e1: Edit, e2: Edit, e3: Edit)
    requires Fits(t0, e1) && Do(t0, e1) == t1 && Fits(t1, e2) && Do(t1, e2) == t2 && Fits(t2, e3) && Do(t2, e3) == t3
    ensures Valid(t0, [e1, e2, e3]) && DoAll(t0, [e1, e2, e3]) == t3
  {
    assert [e1, e2, e3][1..] == [e2, e3] && [e2, e3][1..] == [e3] && [e3][1..] == [];
    assert Valid(t3, []) && DoAll(t3, []) == t3;
    assert Valid(t2, [e3]) && DoAll(t2, [e3]) == t3;
    assert Valid(t1, [e2, e3]) && DoAll(t1, [e2, e3]) == t3;
  }

  lemma {:induction false} ThreeReplays(t0: Text, t1: Text, t2: Text, t3: Text, e1: Edit, e2: Edit, e3: Edit)
    requires ReplaceRange(t0, e1.start, |e1.placeholder|, e1.original) == Some(t1)
    requires ReplaceRange(t1, e2.start + e1.Shrinks(), |e2.placeholder|, e2.original) == Some(t2)
    requires ReplaceRange(t2, e3.start + e1.Shrinks() + e2.Shrinks(), |e3.placeholder|, e3.original) == Some(t3)
    ensures Replay(t0, [e1, e2, e3], 0) == Some(t3)
  {
    assert [e1, e2, e3][1..] == [e2, e3] && [e2, e3][1..] == [e3] && [e3][1..] == [];
    var offset := e1.Shrinks() + e2.Shrinks();
    assert Replay(t3, [], offset + e3.Shrinks()) == Some(t3);
    assert Replay(t2, [e3], offset) == Some(t3);
    assert Replay(t1, [e2, e3], e1.Shrinks()) == Some(t3);
  }

  // One replacement, as an edit and as a step of replay.
  lemma {:induction false} Swapped(p: Text, a: Text, b: Text, s: Text, t: Text, t': Text)
    requires t == (p + a) + s && t' == (p + b) + s
    ensures var e := Edit(|p|, a, b); Fits(t, e) && Do(t, e) == t'
    ensures ReplaceRange(t, |p|, |a|, b) == Some(t')
  {
    DoInside(p, a, s, b);
    SwapMiddle(p, a, b, s);
  }

  // ----------------------------------- edits whose characters tell them from placeholders

  predicate IsBracket(c: char) {
    c == '[' || c == ']'
  }

  predicate InPlaceholder(c: char) {
    IsBracket(c) || 'A' <= c <= 'Z'
  }

  // Capital letters in brackets, as all built-in placeholders are.
  predicate Bracketed(text: Text) {
    && |text| >= 2 && text[0] == '[' && text[|text| - 1] == ']'
    && forall i | 0 <= i < |text| :: InPlaceholder(text[i])
  }

  // No brackets, and something that no such placeholder has: a digit, or the sign in an address.
  predicate Marked(text: Text) {
    && (forall i | 0 <= i < |text| :: !IsBracket(text[i]))
    && exists i :: 0 <= i < |text| && !InPlaceholder(text[i])
  }

  ghost predicate AllMarked(log: Log) {
    forall i | 0 <= i < |log| :: Bracketed(log[i].placeholder) && Marked(log[i].original)
  }

  // The text shows the placeholder at this place.
  ghost predicate ShowsAt(t: Text, pos: int, text: Text) {
    0 <= pos <= pos + |text| <= |t| && t[pos..pos + |text|] == text
  }

  lemma {:induction false} MarkedKeepsApart(t: Text, pos: int, text: Text, e: Edit)
    requires ShowsAt(t, pos, text) && Bracketed(text) && Fits(t, e) && Marked(e.original)
    ensures e.start + |e.original| <= pos || pos + |text| <= e.start
  {
    var end := e.start + |e.original|;
    assert forall k | pos <= k < pos + |text| :: t[k] == text[k - pos];
    assert forall k | e.start <= k < end :: t[k] == e.original[k - e.start];
    assert IsBracket(t[pos]) && IsBracket(t[pos + |text| - 1]);
    var i :| 0 <= i < |e.original| && !InPlaceholder(e.original[i]);
    assert !InPlaceholder(t[e.start + i]);
  }

  lemma {:induction false} StillShown(t: Text, pos: int, text: Text, e: Edit)
    requires ShowsAt(t, pos, text) && Fits(t, e)
    ensures e.start + |e.original| <= pos ==> ShowsAt(Do(t, e), pos - e.Shrinks(), text)
    ensures pos + |text| <= e.start ==> ShowsAt(Do(t, e), pos, text)
  {
    var t' := Do(t, e);
    if e.start + |e.original| <= pos {
      assert t'[pos - e.Shrinks()..pos - e.Shrinks() + |text|] == t[pos..pos + |text|];
    }
    if pos + |text| <= e.start {
      assert t'[pos..pos + |text|] == t[pos..pos + |text|];
    }
  }

  lemma {:induction false} MarkedClears(t: Text, pos: int, text: Text, log: Log)
    requires ShowsAt(t, pos, text) && Bracketed(text) && Valid(t, log) && AllMarked(log)
    ensures Clears(pos, |text|, log)
    decreases |log|
  {
    if log != [] {
      var e := log[0];
      assert Marked(e.original);
      MarkedKeepsApart(t, pos, text, e);
      StillShown(t, pos, text, e);
      assert AllMarked(log[1..]);
      MarkedClears(Do(t, e), if e.start + |e.original| <= pos then pos - e.Shrinks() else pos, text, log[1..]);
    }
  }

  /** Such edits never touch an earlier placeholder, and their placeholders show. */
  lemma {:induction false} MarkedIsDisjoint(t: Text, log: Log)
    requires Valid(t, log) && AllMarked(log)
    ensures Disjoint(log) && AllTelling(log)
    decreases |log|
  {
    if log != [] {
      var e := log[0];
      assert Bracketed(e.placeholder) && Marked(e.original);
      assert AllMarked(log[1..]);
      assert ShowsAt(Do(t, e), e.start, e.placeholder);
      MarkedClears(Do(t, e), e.start, e.placeholder, log[1..]);
      MarkedIsDisjoint(Do(t, e), log[1..]);
      assert forall i | 0 < i < |log| :: log[i] == log[1..][i - 1];
    }
  }
}
