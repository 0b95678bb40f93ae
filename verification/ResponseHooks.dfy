/** Response-phase hooks in middleware depth order (`src/common/http/before-headers.ts`). */
module ResponseHooks {
  import opened Options

  /** The depths run from 0, the transport, to 9, the view. */
  type Depth = d: int | 0 <= d <= 9

  datatype Registration<H> = Registration(depth: Depth, hook: H, sequence: nat)

  /** Infinity until someone short-circuits. */
  type Floor = Option<Depth>

  predicate AtOrAbove(depth: Depth, floor: Floor) {
    floor.None? || depth <= floor.value
  }

  /** The comparator: deepest first, registration order within a depth. */
  predicate Precedes<H>(a: Registration<H>, b: Registration<H>) {
    a.depth > b.depth || (a.depth == b.depth && a.sequence < b.sequence)
  }

  predicate Sorted<H>(list: seq<Registration<H>>) {
    forall i, j :: 0 <= i < j < |list| ==> Precedes(list[i], list[j])
  }

  // ---------------------------------------------------------------------
  // One response
  // ---------------------------------------------------------------------

  class HookState<H> {
    var hooks: seq<Registration<H>>
    var ran: bool
    var floor: Floor
    var sequence: nat

    ghost predicate Valid()
      reads this
    {
      |hooks| == sequence && forall i :: 0 <= i < |hooks| ==> hooks[i].sequence == i
    }

    /** `ensureState` on a response that has none. */
    constructor ()
      ensures Valid() && hooks == [] && !ran && floor == None
    {
      hooks, ran, floor, sequence := [], false, None, 0;
    }

    method OnBeforeHeaders(depth: Depth, hook: H)
      requires Valid()
      modifies this
      ensures Valid() && ran == old(ran) && floor == old(floor)
      ensures hooks == old(hooks) + [Registration(depth, hook, |old(hooks)|)]
    {
      hooks := hooks + [Registration(depth, hook, sequence)];
      sequence := sequence + 1;
    }

    method SkipBeforeHeadersHooks(belowDepth: Depth)
      modifies `floor
      ensures floor == Lowered(old(floor), belowDepth)
      ensures floor.Some? && floor.value <= belowDepth && (floor == Some(belowDepth) || floor == old(floor))
      ensures old(floor).Some? ==> floor.value <= old(floor).value
    {
      floor := if floor.None? || belowDepth < floor.value then Some(belowDepth) else floor;
    }

    /** The filter and the stable sort, by insertion. */
    method OrderedHooks() returns (list: seq<Registration<H>>)
      requires Valid()
      ensures list == Ordered(hooks, floor)
    {
      list := [];
      var i := 0;
      while i < |hooks|
        invariant 0 <= i <= |hooks|
        invariant list == Ordered(hooks[..i], floor)
      {
        assert hooks[..i + 1][..i] == hooks[..i];
        if AtOrAbove(hooks[i].depth, floor) { list := Insert(list, hooks[i]); }
        i := i + 1;
      }
      assert hooks[..|hooks|] == hooks;
    }

    /** The patched `writeHead`: the hooks run once, whoever calls it and however often. */
    method WriteHead() returns (run: seq<H>)
      requires Valid()
      modifies `ran
      ensures ran
      ensures run == if old(ran) then [] else HooksOf(Ordered(hooks, floor))
    {
      run := [];
      if !ran {
        ran := true;
        var list := OrderedHooks();
        var i := 0;
        while i < |list|
          invariant 0 <= i <= |list| && run == HooksOf(list[..i])
        {
          assert list[..i + 1][..i] == list[..i];
          run := run + [list[i].hook];
          i := i + 1;
        }
        assert list[..|list|] == list;
      }
    }
  }

  function Lowered(floor: Floor, depth: Depth): Floor {
    if floor.None? || depth < floor.value then Some(depth) else floor
  }

  function Insert<H>(list: seq<Registration<H>>, r: Registration<H>): seq<Registration<H>> {
    if list == [] || Precedes(list[|list| - 1], r) then list + [r]
    else Insert(list[..|list| - 1], r) + [list[|list| - 1]]
  }

  function Ordered<H>(hooks: seq<Registration<H>>, floor: Floor): seq<Registration<H>> {
    if hooks == [] then []
    else
      var rest, last := Ordered(hooks[..|hooks| - 1], floor), hooks[|hooks| - 1];
      if AtOrAbove(last.depth, floor) then Insert(rest, last) else rest
  }

  function HooksOf<H>(list: seq<Registration<H>>): seq<H> {
    if list == [] then [] else HooksOf(list[..|list| - 1]) + [list[|list| - 1].hook]
  }

  // ---------------------------------------------------------------------
  // What runs, and in which order
  // ---------------------------------------------------------------------

  /** The hooks registered at one depth, in order. */
  function AtDepth<H>(list: seq<Registration<H>>, d: Depth): seq<H> {
    if list == [] then []
    else
      var rest, last := AtDepth(list[..|list| - 1], d), list[|list| - 1];
      if last.depth == d then rest + [last.hook] else rest
  }

  /** The depths from the deepest down to `d`, each with its hooks: the response phase written out. */
  function FromDeepest<H>(list: seq<Registration<H>>, floor: Floor, d: int): seq<H>
    requires 0 <= d <= 10
    decreases 10 - d
  {
    if d == 10 then []
    else FromDeepest(list, floor, d + 1) + if AtOrAbove(d, floor) then AtDepth(list, d) else []
  }

  ghost predicate Before<H>(list: seq<Registration<H>>, n: nat) {
    forall i :: 0 <= i < |list| ==> list[i].sequence < n
  }

  lemma {:induction false} InsertKeepsOrder<H>(list: seq<Registration<H>>, r: Registration<H>)
    requires Sorted(list) && Before(list, r.sequence)
    ensures Sorted(Insert(list, r)) && Before(Insert(list, r), r.sequence + 1)
    ensures |Insert(list, r)| == |list| + 1
    ensures forall x :: x in Insert(list, r) ==> x == r || x in list
  {
    if list != [] && !Precedes(list[|list| - 1], r) {
      var n := |list| - 1;
      InsertKeepsOrder(list[..n], r);
      var front := Insert(list[..n], r);
      forall i | 0 <= i < |front|
        ensures Precedes(front[i], list[n])
      {
        assert front[i] == r || front[i] in list[..n];
      }
    }
  }

  /** Inserting a later registration appends it to its depth and leaves the others alone. */
  lemma {:induction false} InsertAtDepth<H>(list: seq<Registration<H>>, r: Registration<H>, d: Depth)
    requires Sorted(list) && Before(list, r.sequence)
    ensures AtDepth(Insert(list, r), d) == AtDepth(list, d) + if r.depth == d then [r.hook] else []
  {
    if list == [] || Precedes(list[|list| - 1], r) {
      assert (list + [r])[..|list|] == list;
    } else {
      var n := |list| - 1;
      InsertAtDepth(list[..n], r, d);
      var front := Insert(list[..n], r);
      assert (front + [list[n]])[..|front|] == front;
    }
  }

  lemma {:induction false} OrderedFacts<H>(hooks: seq<Registration<H>>, floor: Floor)
    requires forall i :: 0 <= i < |hooks| ==> hooks[i].sequence == i
    ensures Sorted(Ordered(hooks, floor)) && Before(Ordered(hooks, floor), |hooks|)
    ensures forall d: Depth :: AtDepth(Ordered(hooks, floor), d) == if AtOrAbove(d, floor) then AtDepth(hooks, d) else []
  {
    if hooks != [] {
      var n := |hooks| - 1;
      OrderedFacts(hooks[..n], floor);
      var rest, last := Ordered(hooks[..n], floor), hooks[n];
      if AtOrAbove(last.depth, floor) {
        InsertKeepsOrder(rest, last);
        forall d: Depth
          ensures AtDepth(Insert(rest, last), d) == if AtOrAbove(d, floor) then AtDepth(hooks, d) else []
        {
          InsertAtDepth(rest, last, d);
        }
      }
    }
  }

  lemma {:induction false} InsertHolds<H>(list: seq<Registration<H>>, r: Registration<H>)
    ensures forall x :: x in Insert(list, r) <==> x == r || x in list
  {
    if list != [] && !Precedes(list[|list| - 1], r) {
      InsertHolds(list[..|list| - 1], r);
      assert list == list[..|list| - 1] + [list[|list| - 1]];
    }
  }

  /** What the sort leaves: the registrations at or above the floor and no others, none twice, the deeper one
      always first and the earlier one first within a depth. */
  lemma {:induction false} OrderedExactly<H>(hooks: seq<Registration<H>>, floor: Floor)
    requires forall i :: 0 <= i < |hooks| ==> hooks[i].sequence == i
    ensures forall r :: r in Ordered(hooks, floor) <==> r in hooks && (floor.Some? ==> r.depth <= floor.value)
    ensures forall i, j :: 0 <= i < j < |Ordered(hooks, floor)| ==>
              var a, b := Ordered(hooks, floor)[i], Ordered(hooks, floor)[j];
              a.depth > b.depth || (a.depth == b.depth && a.sequence < b.sequence)
  {
    OrderedFacts(hooks, floor);
    if hooks != [] {
      var n := |hooks| - 1;
      OrderedExactly(hooks[..n], floor);
      assert hooks == hooks[..n] + [hooks[n]];
      InsertHolds(Ordered(hooks[..n], floor), hooks[n]);
    }
  }

  /** The run takes the hooks of the sorted list one for one. */
  lemma {:induction false} HooksInPlace<H>(list: seq<Registration<H>>, i: nat)
    requires i < |list|
    ensures |HooksOf(list)| == |list| && HooksOf(list)[i] == list[i].hook
  {
    if i < |list| - 1 {
      HooksInPlace(list[..|list| - 1], i);
    } else if i > 0 {
      HooksInPlace(list[..|list| - 1], i - 1);
    }
  }

  /** A list sorted by depth is the concatenation of its depths. */
  lemma {:induction false} SortedIsDeepestFirst<H>(list: seq<Registration<H>>, d: int)
    requires Sorted(list) && 0 <= d <= 10 && forall i :: 0 <= i < |list| ==> list[i].depth >= d
    ensures HooksOf(list) == FromDeepest(list, None, d)
    decreases |list|, 10 - d
  {
    hide FromDeepest, AtDepth;
    if list == [] {
      NothingAtDepths<H>(d);
    } else {
      var n := |list| - 1;
      if list[n].depth == d {
        SortedIsDeepestFirst(list[..n], d);
        LastIsShallowest(list, d);
      } else {
        assert forall i :: 0 <= i < n ==> Precedes(list[i], list[n]);
        SortedIsDeepestFirst(list, d + 1);
        NoneSoShallow(list, d);
      }
    }
  }

  lemma LastIsShallowest<H>(list: seq<Registration<H>>, d: Depth)
    requires list != [] && list[|list| - 1].depth == d
    ensures FromDeepest(list, None, d) == FromDeepest(list[..|list| - 1], None, d) + [list[|list| - 1].hook]
  {
    var n := |list| - 1;
    LastAtDepth(list, d, d + 1);
    assert AtDepth(list, d) == AtDepth(list[..n], d) + [list[n].hook];
  }

  lemma NoneSoShallow<H>(list: seq<Registration<H>>, d: Depth)
    requires forall i :: 0 <= i < |list| ==> list[i].depth > d
    ensures FromDeepest(list, None, d) == FromDeepest(list, None, d + 1)
  {
    NoneAtDepth(list, d);
  }

  lemma {:induction false} NothingAtDepths<H>(d: int)
    requires 0 <= d <= 10
    ensures FromDeepest<H>([], None, d) == []
    decreases 10 - d
  {
    if d < 10 { NothingAtDepths<H>(d + 1); }
  }

  /** Dropping a last element of depth `e` does not change the deeper ones. */
  lemma {:induction false} LastAtDepth<H>(list: seq<Registration<H>>, e: Depth, d: int)
    requires list != [] && list[|list| - 1].depth == e && e < d <= 10
    ensures FromDeepest(list, None, d) == FromDeepest(list[..|list| - 1], None, d)
    decreases 10 - d
  {
    if d < 10 { LastAtDepth(list, e, d + 1); }
  }

  lemma {:induction false} NoneAtDepth<H>(list: seq<Registration<H>>, d: Depth)
    requires forall i :: 0 <= i < |list| ==> list[i].depth > d
    ensures AtDepth(list, d) == []
  {
    if list != [] { NoneAtDepth(list[..|list| - 1], d); }
  }

  lemma {:induction false} SameDepthsSameRun<H>(a: seq<Registration<H>>, floorA: Floor,
                                                b: seq<Registration<H>>, floorB: Floor, d: int)
    requires 0 <= d <= 10
    requires forall e: Depth ::
               (if AtOrAbove(e, floorA) then AtDepth(a, e) else []) == (if AtOrAbove(e, floorB) then AtDepth(b, e) else [])
    ensures FromDeepest(a, floorA, d) == FromDeepest(b, floorB, d)
    decreases 10 - d
  {
    if d < 10 {
      SameDepthsSameRun(a, floorA, b, floorB, d + 1);
      var e: Depth := d;
      assert (if AtOrAbove(e, floorA) then AtDepth(a, e) else []) == (if AtOrAbove(e, floorB) then AtDepth(b, e) else []);
    }
  }

  /** Each hook at or above the floor runs exactly once, deepest first and in registration order within a
      depth; none below the floor runs. */
  lemma RunsDeepestFirst<H>(hooks: seq<Registration<H>>, floor: Floor)
    requires forall i :: 0 <= i < |hooks| ==> hooks[i].sequence == i
    ensures HooksOf(Ordered(hooks, floor)) == FromDeepest(hooks, floor, 0)
  {
    var list := Ordered(hooks, floor);
    OrderedFacts(hooks, floor);
    SortedIsDeepestFirst(list, 0);
    SameDepthsSameRun(list, None, hooks, floor, 0);
  }

  /** The run does not depend on how registrations at different depths interleave. */
  lemma RunIgnoresInterleaving<H>(a: seq<Registration<H>>, b: seq<Registration<H>>, floor: Floor)
    requires forall i :: 0 <= i < |a| ==> a[i].sequence == i
    requires forall i :: 0 <= i < |b| ==> b[i].sequence == i
    requires forall d: Depth :: AtDepth(a, d) == AtDepth(b, d)
    ensures HooksOf(Ordered(a, floor)) == HooksOf(Ordered(b, floor))
  {
    RunsDeepestFirst(a, floor);
    RunsDeepestFirst(b, floor);
    SameDepthsSameRun(a, floor, b, floor, 0);
  }

  // ---------------------------------------------------------------------
  // Any sequence of registrations and skips before the headers go out
  // ---------------------------------------------------------------------

  datatype Event<H> = Register(depth: Depth, hook: H) | Skip(below: Depth)

  /** Drives a response through the events and sends its headers. */
  method Respond<H>(events: seq<Event<H>>) returns (run: seq<H>, again: seq<H>)
    ensures run == FromDeepest(RegisteredIn(events), LowestFloor(events), 0)
    ensures again == []
  {
    var state := new HookState<H>();
    var i := 0;
    while i < |events|
      invariant 0 <= i <= |events| && fresh(state) && state.Valid() && !state.ran
      invariant state.hooks == RegisteredIn(events[..i]) && state.floor == LowestFloor(events[..i])
    {
      assert events[..i + 1][..i] == events[..i];
      match events[i] {
        case Register(depth, hook) => state.OnBeforeHeaders(depth, hook);
        case Skip(below) => state.SkipBeforeHeadersHooks(below);
      }
      i := i + 1;
    }
    assert events[..|events|] == events;
    RunsDeepestFirst(state.hooks, state.floor);
    run := state.WriteHead();
    again := state.WriteHead();
  }

  function RegisteredIn<H>(events: seq<Event<H>>): seq<Registration<H>> {
    if events == [] then []
    else
      var rest, last := RegisteredIn(events[..|events| - 1]), events[|events| - 1];
      if last.Register? then rest + [Registration(last.depth, last.hook, |rest|)] else rest
  }

  function LowestFloor<H>(events: seq<Event<H>>): Floor {
    if events == [] then None
    else
      var rest, last := LowestFloor(events[..|events| - 1]), events[|events| - 1];
      if last.Skip? then Lowered(rest, last.below) else rest
  }

  /** The floor in force is the least of the skips, whenever they came. */
  lemma {:induction false} FloorIsLeastSkip<H>(events: seq<Event<H>>)
    ensures LowestFloor(events) == None <==> forall i :: 0 <= i < |events| ==> !events[i].Skip?
    ensures LowestFloor(events).Some? ==>
              && Skip(LowestFloor(events).value) in events
              && forall i :: 0 <= i < |events| && events[i].Skip? ==> LowestFloor(events).value <= events[i].below
  {
    if events != [] {
      var n := |events| - 1;
      FloorIsLeastSkip(events[..n]);
      assert events == events[..n] + [events[n]];
    }
  }
}
