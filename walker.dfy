/** `Xmlish::Walker` (lib/xmlish.rb:154-197): like the reconstructor, but a callback receives
    a continuation instead of the rendered content. The callback decides whether, when and
    how often the continuation runs; running it walks the subtree (or yields the text leaf).
    Callbacks are modelled as scripts: a sequence of actions, each of which records an output
    line or runs the continuation, followed by a result computed from the values the
    continuation returned. The output lines recorded by all callbacks form the trace. */
module Walker {
  import opened Nodes
  import Reconstructor

  /** One step of a callback. */
  datatype Action =
    | Emit(line: string)                   // record a line of output
    | Force                                // run the continuation
    | EmitForced(f: string -> string)      // run the continuation and record f of its value

  /** A callback: its actions, then its return value computed from the values of the
      continuation runs, in order. */
  datatype Script = Script(actions: seq<Action>, result: seq<string> -> string)

  /** The callback hash; a key mapped to None is registered without a callback. */
  type Callbacks = map<string, Option<Script>>

  /** What walking produces: the joined return values, and the lines recorded on the way. */
  datatype Outcome = Outcome(value: string, trace: seq<string>)

  /** What running the actions of one callback produces. */
  datatype Run = Run(values: seq<string>, trace: seq<string>)

  /** The continuation handed to a callback: a text leaf, or the children of a node. */
  datatype Thunk = Leaf(text: string) | Subtree(items: seq<Item>)

  function First(values: seq<string>): string
  {
    if |values| > 0 then values[0] else ""
  }

  /** `identity_callback` (lib/xmlish.rb:193-195): runs the continuation once and returns its value. */
  function IdentityScript(): Script
  {
    Script([Force], First)
  }

  /** `callback_for_tag` (lib/xmlish.rb:185-191). */
  function CallbackFor(cb: Callbacks, tag: string): (r: Option<Script>)
    ensures r.None? <==> tag !in cb
    ensures tag in cb && cb[tag].None? ==> r == Some(IdentityScript())
    ensures tag in cb && cb[tag].Some? ==> r == cb[tag]
  {
    if tag in cb then
      match cb[tag]
      case Some(s) => Some(s)
      case None => Some(IdentityScript())
    else
      None
  }

  function ThunkSize(k: Thunk): nat
  {
    match k
    case Leaf(_) => 0
    case Subtree(items) => Size(items)
  }

  function Join(a: Outcome, b: Outcome): Outcome
  {
    Outcome(a.value + b.value, a.trace + b.trace)
  }

  /** `walk` (lib/xmlish.rb:163-181): the items walked one by one, left to right. */
  function WalkAll(items: seq<Item>, cb: Callbacks): Outcome
    decreases Size(items), 2, |items|
  {
    if items == [] then Outcome("", [])
    else
      SizeElement(items, 0);
      Join(WalkItem(items[0], cb), WalkAll(items[1..], cb))
  }

  function WalkItem(it: Item, cb: Callbacks): Outcome
    decreases ItemSize(it), 1, 0
  {
    match it
    case Node(ch, n) =>
      (match CallbackFor(cb, n)
       case Some(script) =>
         var run := RunActions(script.actions, Subtree(ch), cb);
         Outcome(script.result(run.values), run.trace)
       case None => WalkAll(ch, cb))
    case Text(s) =>
      (match CallbackFor(cb, "text")
       case Some(script) =>
         var run := RunActions(script.actions, Leaf(s), cb);
         Outcome(script.result(run.values), run.trace)
       case None => Outcome(s, []))
  }

  /** Two runs one after the other. */
  function Then(r1: Run, r2: Run): Run
  {
    Run(r1.values + r2.values, r1.trace + r2.trace)
  }

  /** The actions of a callback in order; every run of the continuation walks it afresh. */
  function RunActions(acts: seq<Action>, k: Thunk, cb: Callbacks): Run
    decreases ThunkSize(k), 3, |acts| + 2
  {
    if acts == [] then Run([], []) else Then(Step(acts[0], k, cb), RunActions(acts[1..], k, cb))
  }

  /** One action: a recorded line, or a run of the continuation (with its recorded line). */
  function Step(a: Action, k: Thunk, cb: Callbacks): Run
    decreases ThunkSize(k), 3, 1
  {
    match a
    case Emit(line) => Run([], [line])
    case Force =>
      var o := ForceThunk(k, cb);
      Run([o.value], o.trace)
    case EmitForced(f) =>
      var o := ForceThunk(k, cb);
      Run([o.value], o.trace + [f(o.value)])
  }

  /** Running the continuation: a text leaf yields itself, a node's children are walked. */
  function ForceThunk(k: Thunk, cb: Callbacks): Outcome
    decreases ThunkSize(k), 3, 0
  {
    match k
    case Leaf(s) => Outcome(s, [])
    case Subtree(items) => WalkAll(items, cb)
  }

  lemma ThenAssoc(r1: Run, r2: Run, r3: Run)
    ensures Then(r1, Then(r2, r3)) == Then(Then(r1, r2), r3)
  {
    assert r1.values + (r2.values + r3.values) == (r1.values + r2.values) + r3.values;
    assert r1.trace + (r2.trace + r3.trace) == (r1.trace + r2.trace) + r3.trace;
  }

  lemma RunSingle(a: Action, k: Thunk, cb: Callbacks)
    ensures RunActions([a], k, cb) == Step(a, k, cb)
  {
    var s := Step(a, k, cb);
    assert [a][1..] == [];
    assert s.values + [] == s.values && s.trace + [] == s.trace;
  }

  /** Walking a forest is walking its parts in order: values and traces concatenate. */
  lemma {:induction false} WalkAppend(a: seq<Item>, b: seq<Item>, cb: Callbacks)
    ensures WalkAll(a + b, cb) == Join(WalkAll(a, cb), WalkAll(b, cb))
    decreases |a|
  {
    if a == [] {
      assert a + b == b;
    } else {
      assert (a + b)[1..] == a[1..] + b;
      WalkAppend(a[1..], b, cb);
    }
  }

  /** The actions of a callback run in order: values and recorded lines concatenate. */
  lemma {:induction false} RunActionsAppend(a1: seq<Action>, a2: seq<Action>, k: Thunk, cb: Callbacks)
    ensures RunActions(a1 + a2, k, cb) ==
      Run(RunActions(a1, k, cb).values + RunActions(a2, k, cb).values,
          RunActions(a1, k, cb).trace + RunActions(a2, k, cb).trace)
    decreases |a1|
  {
    if a1 == [] {
      assert a1 + a2 == a2;
    } else {
      var s, r1, r2 := Step(a1[0], k, cb), RunActions(a1[1..], k, cb), RunActions(a2, k, cb);
      assert (a1 + a2)[0] == a1[0];
      assert (a1 + a2)[1..] == a1[1..] + a2;
      RunActionsAppend(a1[1..], a2, k, cb);
      assert RunActions(a1 + a2, k, cb) == Then(s, Then(r1, r2));
      ThenAssoc(s, r1, r2);
    }
  }

  /** A callback that records a line, runs the continuation and records another line brackets
      the subtree's own output between the two lines. */
  lemma BracketedSubtree(ch: seq<Item>, n: string, open: string, close: string,
                         result: seq<string> -> string, cb: Callbacks)
    requires n in cb && cb[n] == Some(Script([Emit(open), Force, Emit(close)], result))
    ensures WalkItem(Node(ch, n), cb).trace == [open] + WalkAll(ch, cb).trace + [close]
    ensures WalkItem(Node(ch, n), cb).value == result([WalkAll(ch, cb).value])
  {
    var k, o := Subtree(ch), WalkAll(ch, cb);
    RunSingle(Emit(close), k, cb);
    assert RunActions([Force, Emit(close)], k, cb) == Run([o.value], o.trace + [close]) by {
      assert [Force, Emit(close)][1..] == [Emit(close)];
      assert ForceThunk(k, cb) == o;
      assert Step(Force, k, cb) == Run([o.value], o.trace);
      assert Step(Emit(close), k, cb) == Run([], [close]);
      assert [o.value] + [] == [o.value];
    }
    assert RunActions([Emit(open), Force, Emit(close)], k, cb) == Run([o.value], [open] + o.trace + [close]) by {
      assert [Emit(open), Force, Emit(close)][1..] == [Force, Emit(close)];
    }
  }

  /** Each run of the continuation walks the subtree again and repeats its output. */
  lemma RepeatedForce(ch: seq<Item>, cb: Callbacks)
    ensures RunActions([Force, Force], Subtree(ch), cb) ==
      Run([WalkAll(ch, cb).value, WalkAll(ch, cb).value], WalkAll(ch, cb).trace + WalkAll(ch, cb).trace)
  {
    var k := Subtree(ch);
    RunSingle(Force, k, cb);
    assert [Force, Force][1..] == [Force];
  }

  /** A callback that never runs its continuation does not walk the subtree at all: its
      outcome does not depend on the node's children. */
  lemma {:induction false} UnforcedIgnoresSubtree(acts: seq<Action>, ch1: seq<Item>, ch2: seq<Item>, cb: Callbacks)
    requires forall i :: 0 <= i < |acts| ==> acts[i].Emit?
    ensures RunActions(acts, Subtree(ch1), cb) == RunActions(acts, Subtree(ch2), cb)
    ensures RunActions(acts, Subtree(ch1), cb).values == []
    decreases |acts|
  {
    if acts != [] {
      UnforcedIgnoresSubtree(acts[1..], ch1, ch2, cb);
    }
  }

  /** A reconstructor transform as a walker callback: run the continuation once and
      return the transform of its value. */
  function Lift(f: string -> string): Script
  {
    Script([Force], values => f(First(values)))
  }

  function LiftAll(cb: Reconstructor.Callbacks): Callbacks
  {
    map k | k in cb :: match cb[k] case None => None case Some(f) => Some(Lift(f))
  }

  /** Walking with the transforms of the reconstructor, each run once, records nothing and
      returns exactly what the reconstructor renders; in particular the two identity
      callbacks agree. */
  lemma {:induction false} WalkMirrorsReconstruct(items: seq<Item>, cb: Reconstructor.Callbacks)
    ensures WalkAll(items, LiftAll(cb)) == Outcome(Reconstructor.ReconstructAll(items, cb), [])
    decreases Size(items), 1
  {
    if items != [] {
      SizeElement(items, 0);
      WalkItemMirrors(items[0], cb);
      WalkMirrorsReconstruct(items[1..], cb);
    }
  }

  lemma {:induction false} WalkItemMirrors(it: Item, cb: Reconstructor.Callbacks)
    ensures WalkItem(it, LiftAll(cb)) == Outcome(Reconstructor.ReconstructItem(it, cb), [])
    decreases ItemSize(it), 0
  {
    var lcb := LiftAll(cb);
    match it
    case Node(ch, n) =>
      WalkMirrorsReconstruct(ch, cb);
      var inner := Reconstructor.ReconstructAll(ch, cb);
      RunSingle(Force, Subtree(ch), lcb);
      assert RunActions([Force], Subtree(ch), lcb) == Run([inner], []);
      assert First([inner]) == inner;
      MirrorsCallback(cb, n);
    case Text(s) =>
      RunSingle(Force, Leaf(s), lcb);
      assert RunActions([Force], Leaf(s), lcb) == Run([s], []);
      assert First([s]) == s;
      MirrorsCallback(cb, "text");
  }

  /** The lifted callbacks register the same keys, each as a single run of the continuation
      whose value goes through the reconstructor's transform. */
  lemma MirrorsCallback(cb: Reconstructor.Callbacks, tag: string)
    ensures CallbackFor(LiftAll(cb), tag).None? <==> Reconstructor.CallbackFor(cb, tag).None?
    ensures CallbackFor(LiftAll(cb), tag).Some? ==>
      CallbackFor(LiftAll(cb), tag).value.actions == [Force] &&
      forall v :: CallbackFor(LiftAll(cb), tag).value.result([v]) == Reconstructor.CallbackFor(cb, tag).value(v)
  {
    forall v ensures First([v]) == v {
    }
  }
}
