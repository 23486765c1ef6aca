/**
 Reassembly of streamed tool calls: deltas carry an index, fragments of arguments, and a
 name and id that may come late; a change of index closes the call before it.
 */
module ToolCallStreaming {
  import opened Wrappers
  import opened Sequences

  datatype Delta = Delta(index: nat, id: string, name: string, arguments: string)

  datatype ToolCall = ToolCall(id: string, name: string, arguments: string)

  // ------------------------------------------------- the reference: runs of deltas

  // The length of the longest prefix with the index of the first delta.
  function RunLength(ds: seq<Delta>): (n: nat)
    requires ds != []
    ensures 0 < n <= |ds|
    ensures forall i | 0 <= i < n :: ds[i].index == ds[0].index
    ensures n < |ds| ==> ds[n].index != ds[0].index
  {
    if |ds| > 1 && ds[1].index == ds[0].index then 1 + RunLength(ds[1..]) else 1
  }

  // The maximal runs of equal index.
  function Runs(ds: seq<Delta>): seq<seq<Delta>> {
    if ds == [] then [] else [ds[..RunLength(ds)]] + Runs(ds[RunLength(ds)..])
  }

  function LastNonEmpty(texts: seq<string>): string {
    if texts == [] then ""
    else if texts[|texts| - 1] != "" then texts[|texts| - 1]
    else LastNonEmpty(texts[..|texts| - 1])
  }

  function Join(texts: seq<string>): string {
    if texts == [] then "" else Join(texts[..|texts| - 1]) + texts[|texts| - 1]
  }

  function Texts(ds: seq<Delta>, f: Delta -> string): (r: seq<string>)
    ensures |r| == |ds| && forall i | 0 <= i < |ds| :: r[i] == f(ds[i])
  {
    seq(|ds|, i requires 0 <= i < |ds| => f(ds[i]))
  }

  // The call that one run makes: all arguments in order, the last name and id given.
  function CallOf(run: seq<Delta>): ToolCall {
    ToolCall(LastNonEmpty(Texts(run, (d: Delta) => d.id)),
             LastNonEmpty(Texts(run, (d: Delta) => d.name)),
             Join(Texts(run, (d: Delta) => d.arguments)))
  }

  function CallsOf(runs: seq<seq<Delta>>): seq<ToolCall> {
    if runs == [] then [] else [CallOf(runs[0])] + CallsOf(runs[1..])
  }

  function Calls(ds: seq<Delta>): seq<ToolCall> {
    CallsOf(Runs(ds))
  }

  // ------------------------------------------------------------- one more delta

  // Joining a delta to a call under way.
  function Extend(c: ToolCall, d: Delta): ToolCall {
    ToolCall(if d.id != "" then d.id else c.id, if d.name != "" then d.name else c.name, c.arguments + d.arguments)
  }

  lemma {:induction false} CallOfAppend(run: seq<Delta>, d: Delta)
    ensures CallOf(run + [d]) == Extend(CallOf(run), d)
  {
    TextsAppend(run, d, (d: Delta) => d.id);
    TextsAppend(run, d, (d: Delta) => d.name);
    TextsAppend(run, d, (d: Delta) => d.arguments);
  }

  lemma TextsAppend(run: seq<Delta>, d: Delta, f: Delta -> string)
    ensures Texts(run + [d], f) == Texts(run, f) + [f(d)]
    ensures (Texts(run, f) + [f(d)])[..|run|] == Texts(run, f)
  {
  }

  lemma RunLengthIs(ds: seq<Delta>, n: nat)
    requires 0 < n <= |ds| && (forall i | 0 <= i < n :: ds[i].index == ds[0].index)
    requires n < |ds| ==> ds[n].index != ds[0].index
    ensures RunLength(ds) == n && Runs(ds) == [ds[..n]] + Runs(ds[n..])
  {
  }

  lemma {:induction false} RunsOfUniform(ds: seq<Delta>)
    requires ds != [] && forall i | 0 <= i < |ds| :: ds[i].index == ds[0].index
    ensures Runs(ds) == [ds]
  {
    RunLengthIs(ds, |ds|);
    assert ds[..|ds|] == ds && ds[|ds|..] == [];
    assert [ds] + [] == [ds];
  }

  // What one more delta does to the runs.
  ghost predicate RunsGrow(rs: seq<seq<Delta>>, rs': seq<seq<Delta>>, d: Delta, joins: bool) {
    if joins then rs != [] && rs' == rs[..|rs| - 1] + [rs[|rs| - 1] + [d]] else rs' == rs + [[d]]
  }

  lemma {:induction false} RunsAppend(ds: seq<Delta>, d: Delta)
    ensures RunsGrow(Runs(ds), Runs(ds + [d]), d, ds != [] && ds[|ds| - 1].index == d.index)
    decreases |ds|
  {
    if ds == [] || RunLength(ds) == |ds| {
      AppendToOneRun(ds, d);
    } else {
      var rest := ds[RunLength(ds)..];
      RunsAppend(rest, d);
      AppendBehindRun(ds, d);
      RunsGrowCons(ds[..RunLength(ds)], Runs(rest), Runs(rest + [d]), d, rest[|rest| - 1].index == d.index);
    }
  }

  lemma {:induction false} AppendToOneRun(ds: seq<Delta>, d: Delta)
    requires ds == [] || RunLength(ds) == |ds|
    ensures RunsGrow(Runs(ds), Runs(ds + [d]), d, ds != [] && ds[|ds| - 1].index == d.index)
  {
    RunsOfUniform([d]);
    if ds == [] {
      Concat0([d]);
      Concat0([[d]]);
    } else {
      RunsOfUniform(ds);
      if ds[|ds| - 1].index == d.index {
        RunsOfUniform(ds + [d]);
        Concat0([ds + [d]]);
      } else {
        RunLengthIs(ds + [d], |ds|);
        AppendSlices(ds, d, |ds|);
      }
    }
  }

  lemma {:induction false} AppendBehindRun(ds: seq<Delta>, d: Delta)
    requires ds != [] && RunLength(ds) < |ds|
    ensures Runs(ds + [d]) == [ds[..RunLength(ds)]] + Runs(ds[RunLength(ds)..] + [d])
  {
    RunLengthIs(ds + [d], RunLength(ds));
    AppendSlices(ds, d, RunLength(ds));
  }

  lemma AppendSlices(ds: seq<Delta>, d: Delta, n: nat)
    requires n <= |ds|
    ensures (ds + [d])[..n] == ds[..n] && (ds + [d])[n..] == ds[n..] + [d]
    ensures n == |ds| ==> ds[..n] == ds && ds[n..] + [d] == [d]
  {
  }

  lemma RunsGrowCons(run: seq<Delta>, rs: seq<seq<Delta>>, rs': seq<seq<Delta>>, d: Delta, joins: bool)
    requires RunsGrow(rs, rs', d, joins)
    ensures RunsGrow([run] + rs, [run] + rs', d, joins)
  {
  }

  lemma {:induction false} CallsOfAppend(a: seq<seq<Delta>>, run: seq<Delta>)
    ensures CallsOf(a + [run]) == CallsOf(a) + [CallOf(run)]
  {
    if a == [] {
      assert a + [run] == [run];
      assert CallsOf([run][1..]) == [];
    } else {
      assert (a + [run])[1..] == a[1..] + [run];
      CallsOfAppend(a[1..], run);
    }
  }

  // What one more delta does to the calls: extend the last one, or open another.
  ghost predicate CallsGrow(cs: seq<ToolCall>, cs': seq<ToolCall>, d: Delta, joins: bool) {
    if joins then cs != [] && cs' == cs[..|cs| - 1] + [Extend(cs[|cs| - 1], d)]
    else cs' == cs + [ToolCall(d.id, d.name, d.arguments)]
  }

  lemma {:induction false} CallsAppend(ds: seq<Delta>, d: Delta)
    ensures CallsGrow(Calls(ds), Calls(ds + [d]), d, ds != [] && ds[|ds| - 1].index == d.index)
  {
    RunsAppend(ds, d);
    CallsGrowWithRuns(Runs(ds), Runs(ds + [d]), d, ds != [] && ds[|ds| - 1].index == d.index);
  }

  lemma {:induction false} CallsGrowWithRuns(rs: seq<seq<Delta>>, rs': seq<seq<Delta>>, d: Delta, joins: bool)
    requires RunsGrow(rs, rs', d, joins)
    ensures CallsGrow(CallsOf(rs), CallsOf(rs'), d, joins)
  {
    if joins {
      var before, last := rs[..|rs| - 1], rs[|rs| - 1];
      assert rs == before + [last];
      CallsOfAppend(before, last);
      CallsOfAppend(before, last + [d]);
      CallOfAppend(last, d);
    } else {
      CallsOfAppend(rs, [d]);
      CallOfOne(d);
    }
  }

  lemma {:induction false} CallOfOne(d: Delta)
    ensures CallOf([d]) == ToolCall(d.id, d.name, d.arguments)
  {
    CallOfAppend([], d);
    assert [] + [d] == [d];
    assert CallOf([]) == ToolCall("", "", "") && "" + d.arguments == d.arguments;
  }

  // ------------------------------------------------------------------- the buffer

  datatype CurrentTool = CurrentTool(index: nat, call: ToolCall)

  // The call under way and the calls closed before it are those left behind and those of the runs.
  ghost predicate Represents(current: Option<CurrentTool>, closed: seq<ToolCall>, pushed: seq<Delta>,
                             kept: seq<ToolCall>)
  {
    if pushed == [] then current == None && closed == kept
    else
      && current.Some? && current.value.index == pushed[|pushed| - 1].index
      && closed + [current.value.call] == kept + Calls(pushed)
  }

  function Opening(d: Delta): Option<CurrentTool> {
    Some(CurrentTool(d.index, ToolCall(d.id, d.name, d.arguments)))
  }

  lemma {:induction false} PushRepresents(current: Option<CurrentTool>, closed: seq<ToolCall>, pushed: seq<Delta>,
                                          kept: seq<ToolCall>,
                       d: Delta)
    requires Represents(current, closed, pushed, kept)
    ensures current.None? ==> Represents(Opening(d), closed, pushed + [d], kept)
    ensures current.Some? && current.value.index == d.index ==>
              Represents(Some(CurrentTool(d.index, Extend(current.value.call, d))), closed, pushed + [d], kept)
    ensures current.Some? && current.value.index != d.index ==>
              Represents(Opening(d), closed + [current.value.call], pushed + [d], kept)
  {
    OneMoreCall(kept, pushed, d);
    if current.Some? {
      var state := current.value;
      LastCallGrows(closed, state.call, kept + Calls(pushed + [d]), d, state.index == d.index);
    }
  }

  class ToolCallBuffer {
    var currentTool: Option<CurrentTool>
    var accumulatedTools: seq<ToolCall>
    // The deltas pushed since the last finish, and the calls that finish left behind.
    ghost var pushed: seq<Delta>
    ghost var kept: seq<ToolCall>

    ghost predicate Valid()
      reads this
    {
      Represents(currentTool, accumulatedTools, pushed, kept)
    }

    constructor ()
      ensures Valid() && pushed == [] && kept == []
    {
      currentTool, accumulatedTools, pushed, kept := None, [], [], [];
    }

    // A delta that is not JSON is dropped.
    method PushDelta(delta: Option<Delta>)
      requires Valid()
      modifies this
      ensures Valid() && kept == old(kept)
      ensures pushed == old(pushed) + if delta.Some? then [delta.value] else []
    {
      if delta.None? {
        Concat0(pushed);
        return;
      }
      var d := delta.value;
      PushRepresents(currentTool, accumulatedTools, pushed, kept, d);
      if currentTool.Some? {
        var state := currentTool.value;
        if state.index == d.index {
          currentTool := Some(CurrentTool(d.index, Extend(state.call, d)));
        } else {
          accumulatedTools := accumulatedTools + [state.call];
          currentTool := Some(CurrentTool(d.index, ToolCall(d.id, d.name, d.arguments)));
        }
      } else {
        currentTool := Some(CurrentTool(d.index, ToolCall(d.id, d.name, d.arguments)));
      }
      pushed := pushed + [d];
    }

    // Hands out the call under way alone; the calls closed before it stay.
    method FinishCurrentTool() returns (r: Option<ToolCall>)
      requires Valid()
      modifies this
      ensures Valid() && pushed == []
      ensures old(pushed) == [] ==> r == None && kept == old(kept)
      ensures old(pushed) != [] ==> r.Some? && kept + [r.value] == old(kept) + Calls(old(pushed))
    {
      r := if currentTool.Some? then Some(currentTool.value.call) else None;
      currentTool := None;
      pushed, kept := [], accumulatedTools;
    }

    method FinishAll() returns (all: seq<ToolCall>)
      requires Valid()
      modifies this
      ensures Valid() && pushed == [] && kept == []
      ensures all == old(kept) + Calls(old(pushed))
    {
      Concat0(kept);
      all := accumulatedTools;
      var last := FinishCurrentTool();
      if last.Some? {
        all := all + [last.value];
      }
      accumulatedTools, kept := [], [];
    }
  }

  lemma {:induction false} OneMoreCall(kept: seq<ToolCall>, ds: seq<Delta>, d: Delta)
    ensures CallsGrow(kept + Calls(ds), kept + Calls(ds + [d]), d, ds != [] && ds[|ds| - 1].index == d.index)
    ensures ds == [] ==> kept + Calls(ds + [d]) == kept + [ToolCall(d.id, d.name, d.arguments)]
  {
    CallsAppend(ds, d);
    CallsGrowBehind(kept, Calls(ds), Calls(ds + [d]), d, ds != [] && ds[|ds| - 1].index == d.index);
    Concat0(kept);
  }

  lemma {:induction false} LastCallGrows(before: seq<ToolCall>, last: ToolCall, cs: seq<ToolCall>, d: Delta,
                                         joins: bool)
    requires CallsGrow(before + [last], cs, d, joins)
    ensures cs == if joins then before + [Extend(last, d)]
                  else (before + [last]) + [ToolCall(d.id, d.name, d.arguments)]
  {
    assert (before + [last])[..|before|] == before;
  }

  lemma {:induction false} CallsGrowBehind(kept: seq<ToolCall>, cs: seq<ToolCall>, cs': seq<ToolCall>, d: Delta,
                                           joins: bool)
    requires CallsGrow(cs, cs', d, joins)
    ensures CallsGrow(kept + cs, kept + cs', d, joins)
  {
    if joins {
      assert (kept + cs)[..|kept + cs| - 1] == kept + cs[..|cs| - 1];
      Concat3(kept, cs[..|cs| - 1], [Extend(cs[|cs| - 1], d)]);
    } else {
      Concat3(kept, cs, [ToolCall(d.id, d.name, d.arguments)]);
    }
  }

  // ----------------------------------------------------- what reassembly preserves

  ghost predicate Uniform(run: seq<Delta>) {
    run != [] && forall i | 0 <= i < |run| :: run[i].index == run[0].index
  }

  // Uniform runs, each with another index than the one before.
  ghost predicate Maximal(rs: seq<seq<Delta>>) {
    && (forall i | 0 <= i < |rs| :: Uniform(rs[i]))
    && (forall i, j | 0 <= i < j < |rs| && j == i + 1 :: rs[i][0].index != rs[j][0].index)
  }

  /** The runs are the deltas cut at every change of index, and nowhere else. */
  lemma {:induction false} RunsAreMaximal(ds: seq<Delta>)
    ensures Concat(Runs(ds)) == ds && Maximal(Runs(ds))
    decreases |ds|
  {
    if ds != [] {
      var n := RunLength(ds);
      var run, tail := ds[..n], ds[n..];
      RunsAreMaximal(tail);
      RunsHead(tail);
      ConcatCons(run, Runs(tail));
      SplitAt(ds, n);
      MaximalCons(run, Runs(tail));
    }
  }

  lemma SplitAt(ds: seq<Delta>, n: nat)
    requires n <= |ds|
    ensures ds[..n] + ds[n..] == ds
  {
  }

  lemma RunsHead(ds: seq<Delta>)
    ensures Runs(ds) != [] <==> ds != []
    ensures ds != [] ==> Runs(ds)[0] != [] && Runs(ds)[0][0] == ds[0]
  {
  }

  lemma MaximalCons(run: seq<Delta>, rs: seq<seq<Delta>>)
    requires Uniform(run) && Maximal(rs) && (rs != [] ==> rs[0][0].index != run[0].index)
    ensures Maximal([run] + rs)
  {
  }

  function Arguments(cs: seq<ToolCall>): string {
    if cs == [] then "" else cs[0].arguments + Arguments(cs[1..])
  }

  function DeltaArguments(ds: seq<Delta>): string {
    if ds == [] then "" else ds[0].arguments + DeltaArguments(ds[1..])
  }

  lemma {:induction false} DeltaArgumentsAppend(a: seq<Delta>, b: seq<Delta>)
    ensures DeltaArguments(a + b) == DeltaArguments(a) + DeltaArguments(b)
  {
    if a == [] {
      assert a + b == b;
    } else {
      assert (a + b)[1..] == a[1..] + b;
      DeltaArgumentsAppend(a[1..], b);
    }
  }

  lemma {:induction false} CallKeepsArguments(run: seq<Delta>)
    ensures CallOf(run).arguments == DeltaArguments(run)
    decreases |run|
  {
    if run != [] {
      var before, d := run[..|run| - 1], run[|run| - 1];
      assert run == before + [d];
      CallOfAppend(before, d);
      CallKeepsArguments(before);
      DeltaArgumentsAppend(before, [d]);
      assert DeltaArguments([d][1..]) == "";
    }
  }

  /** Argument text is conserved: joined over all calls it is the text of all deltas, in order. */
  lemma {:induction false} ArgumentsAreConserved(ds: seq<Delta>)
    ensures Arguments(Calls(ds)) == DeltaArguments(ds)
    decreases |ds|
  {
    if ds != [] {
      var n := RunLength(ds);
      ArgumentsAreConserved(ds[n..]);
      CallKeepsArguments(ds[..n]);
      DeltaArgumentsAppend(ds[..n], ds[n..]);
      assert ds == ds[..n] + ds[n..];
      var rest := Runs(ds[n..]);
      assert ([ds[..n]] + rest)[1..] == rest;
      assert Calls(ds) == [CallOf(ds[..n])] + CallsOf(rest);
      assert Calls(ds)[1..] == CallsOf(rest);
    }
  }

  // The text is the last non-empty one, or there is none.
  ghost predicate IsLastNonEmpty(texts: seq<string>, text: string) {
    || (text == "" && forall i | 0 <= i < |texts| :: texts[i] == "")
    || (text != "" && exists i ::
          0 <= i < |texts| && texts[i] == text && forall j | i < j < |texts| :: texts[j] == "")
  }

  lemma {:induction false} LastNonEmptyIs(texts: seq<string>)
    ensures IsLastNonEmpty(texts, LastNonEmpty(texts))
    decreases |texts|
  {
    var n, last := |texts|, LastNonEmpty(texts);
    if n > 0 && texts[n - 1] == "" {
      var before := texts[..n - 1];
      LastNonEmptyIs(before);
      if last != "" {
        var i :| 0 <= i < n - 1 && before[i] == last && forall j | i < j < n - 1 :: before[j] == "";
        assert texts[i] == last && forall j | i < j < n - 1 :: texts[j] == before[j];
      }
    } else if n > 0 {
      assert texts[n - 1] == last;
    }
  }

  /** What a call takes from its run: the last id and the last name that are not empty, and the
      argument text of all its deltas in order. */
  lemma {:induction false} CallTakesLast(run: seq<Delta>)
    ensures IsLastNonEmpty(Texts(run, (d: Delta) => d.id), CallOf(run).id)
    ensures IsLastNonEmpty(Texts(run, (d: Delta) => d.name), CallOf(run).name)
    ensures CallOf(run).arguments == DeltaArguments(run)
  {
    LastNonEmptyIs(Texts(run, (d: Delta) => d.id));
    LastNonEmptyIs(Texts(run, (d: Delta) => d.name));
    CallKeepsArguments(run);
  }

  /** There is one call per run, in order. */
  lemma {:induction false} OneCallPerRun(rs: seq<seq<Delta>>)
    ensures |CallsOf(rs)| == |rs| && forall i | 0 <= i < |rs| :: CallsOf(rs)[i] == CallOf(rs[i])
  {
    if rs != [] {
      OneCallPerRun(rs[1..]);
      assert forall i | 0 < i < |rs| :: rs[i] == rs[1..][i - 1];
    }
  }

  // ---------------------------------------------------------------- group by index

  function Only(ds: seq<Delta>, index: nat): seq<Delta> {
    if ds == [] then [] else (if ds[0].index == index then [ds[0]] else []) + Only(ds[1..], index)
  }

  function Except(ds: seq<Delta>, index: nat): (r: seq<Delta>)
    ensures |r| <= |ds|
  {
    if ds == [] then [] else (if ds[0].index == index then [] else [ds[0]]) + Except(ds[1..], index)
  }

  // All deltas of an index together, in order of first appearance.
  function GroupByIndex(ds: seq<Delta>): seq<seq<Delta>>
    decreases |ds|
  {
    if ds == [] then [] else [Only(ds, ds[0].index)] + GroupByIndex(Except(ds[1..], ds[0].index))
  }

  // Deltas of one index are not interrupted by another.
  ghost predicate Contiguous(ds: seq<Delta>) {
    forall i, j, k | 0 <= i < j < k < |ds| && ds[i].index == ds[k].index :: ds[j].index == ds[i].index
  }

  lemma {:induction false} SplitByIndex(ds: seq<Delta>, index: nat, n: nat)
    requires n <= |ds| && forall i | 0 <= i < n :: ds[i].index == index
    ensures Only(ds, index) == ds[..n] + Only(ds[n..], index)
    ensures Except(ds, index) == Except(ds[n..], index)
    decreases n
  {
    if n > 0 {
      SplitByIndex(ds[1..], index, n - 1);
      assert ds[1..][..n - 1] == ds[1..n] && ds[1..][n - 1..] == ds[n..];
      assert ds[..n] == [ds[0]] + ds[1..n];
      assert [] + Except(ds[1..], index) == Except(ds[1..], index);
    } else {
      assert ds[0..] == ds;
    }
  }

  lemma {:induction false} AbsentIndex(ds: seq<Delta>, index: nat)
    ensures Only(ds, index) == [] <==> forall i | 0 <= i < |ds| :: ds[i].index != index
    ensures Only(ds, index) == [] ==> Except(ds, index) == ds
  {
    if ds != [] {
      AbsentIndex(ds[1..], index);
      assert forall i | 0 < i < |ds| :: ds[i] == ds[1..][i - 1];
    }
  }

  lemma {:induction false} GroupsUncut(ds: seq<Delta>, n: nat)
    requires ds != [] && n == RunLength(ds)
    ensures GroupByIndex(ds) == [ds[..n] + Only(ds[n..], ds[0].index)] + GroupByIndex(Except(ds[n..], ds[0].index))
  {
    var index := ds[0].index;
    SplitByIndex(ds, index, n);
    SplitByIndex(ds[1..], index, n - 1);
    assert ds[1..][n - 1..] == ds[n..];
  }

  /** The runs are the groups by index iff no index is interrupted by another. */
  lemma {:induction false} RunsAreGroupsIff(ds: seq<Delta>)
    ensures Runs(ds) == GroupByIndex(ds) <==> Contiguous(ds)
    decreases |ds|
  {
    if ds != [] {
      var index, n := ds[0].index, RunLength(ds);
      var run, rest := ds[..n], ds[n..];
      GroupsUncut(ds, n);
      AbsentIndex(rest, index);
      if Only(rest, index) == [] {
        assert run + [] == run;
        RunsAreGroupsIff(rest);
        ConsEqual(run, Runs(rest), run, GroupByIndex(rest));
        ContiguousTail(ds, n);
      } else {
        ConsEqual(run, Runs(rest), run + Only(rest, index), GroupByIndex(Except(rest, index)));
        var k :| 0 <= k < |rest| && rest[k].index == index;
        assert ds[0].index == ds[n + k].index && ds[n].index != ds[0].index;
      }
    }
  }

  lemma {:induction false} ConsEqual<T>(x: seq<T>, xs: seq<seq<T>>, y: seq<T>, ys: seq<seq<T>>)
    ensures [x] + xs == [y] + ys <==> x == y && xs == ys
  {
    assert ([x] + xs)[0] == x && ([x] + xs)[1..] == xs;
    assert ([y] + ys)[0] == y && ([y] + ys)[1..] == ys;
  }

  lemma {:induction false} ContiguousTail(ds: seq<Delta>, n: nat)
    requires ds != [] && 0 < n <= |ds| && (forall i | 0 <= i < n :: ds[i].index == ds[0].index)
    requires forall i | n <= i < |ds| :: ds[i].index != ds[0].index
    ensures Contiguous(ds) <==> Contiguous(ds[n..])
  {
    var rest := ds[n..];
    if Contiguous(ds) {
      forall i, j, k | 0 <= i < j < k < |rest| && rest[i].index == rest[k].index
        ensures rest[j].index == rest[i].index
      {
        assert ds[n + i].index == ds[n + k].index;
      }
    }
    if Contiguous(rest) {
      forall i, j, k | 0 <= i < j < k < |ds| && ds[i].index == ds[k].index
        ensures ds[j].index == ds[i].index
      {
        if i >= n {
          assert rest[i - n].index == rest[k - n].index;
        }
      }
    }
  }
}
