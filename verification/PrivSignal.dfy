/** The library's own signals: an emission moves the listeners through a second list,
    so that removing any of them is safe. */
module PrivSignals {
  import opened LinkedLists
  import opened Signals

  /** Those that listen, and those an emission that is going on has still to call. */
  datatype Lists = Lists(listeners: seq<Node>, emitting: seq<Node>)

  predicate Has(s: Lists, l: Node) {
    l in s.listeners || l in s.emitting
  }

  function Reversed(list: seq<Node>): seq<Node> {
    if list == [] then [] else Reversed(list[1..]) + [list[0]]
  }

  function Calls(list: seq<Node>): seq<Event> {
    if list == [] then [] else [Called(list[0])] + Calls(list[1..])
  }

  /** All listeners are to be called, those already called by an emission that is still
      going on as well. */
  function Taken(s: Lists): Lists {
    Lists([], s.listeners + s.emitting)
  }

  /** The first one is passed, and listens on at the front. */
  function Passed(s: Lists): Lists
    requires s.emitting != []
  {
    Lists([s.emitting[0]] + s.listeners, s.emitting[1..])
  }

  /** The lists after a handler, and what happened. */
  function AfterScript(s: Lists, script: Script): (Lists, seq<Event>)
    decreases script
  {
    match script
    case Done => (s, [])
    case Add(l, next) =>
      if Has(s, l) then AfterScript(s, next)
      else
        var (s', t) := AfterScript(s.(listeners := s.listeners + [l]), next);
        (s', [Added(l)] + t)
    case Remove(l, next) =>
      if Has(s, l) then
        var (s', t) := AfterScript(Lists(Del(s.listeners, l), Del(s.emitting, l)), next);
        (s', [Removed(l)] + t)
      else AfterScript(s, next)
    case Emit(answers, next) =>
      var (s1, t1) := AfterCalls(Taken(s), answers);
      var (s2, t2) := AfterScript(s1, next);
      (s2, t1 + t2)
  }

  /** The lists after all calls of an emission. Handlers without a script do nothing. */
  function AfterCalls(s: Lists, answers: Answers): (Lists, seq<Event>)
    decreases answers
  {
    if s.emitting == [] then (s, [])
    else
      match answers
      case Silent => (Lists(Reversed(s.emitting) + s.listeners, []), Calls(s.emitting))
      case Then(first, rest) =>
        var (s1, t1) := AfterScript(Passed(s), first);
        var (s2, t2) := AfterCalls(s1, rest);
        (s2, [Called(s.emitting[0])] + t1 + t2)
  }

  // ---------- What is notified ----------

  predicate Served(l: Node, events: seq<Event>) {
    Called(l) in events || Removed(l) in events
  }

  lemma {:induction false} CallsMembers(list: seq<Node>, l: Node)
    ensures Called(l) in Calls(list) <==> l in list
    decreases |list|
  {
    if list != [] {
      CallsMembers(list[1..], l);
    }
  }

  /** Whoever is to be called still is, after a handler, unless it has been served. */
  lemma {:induction false} ScriptServes(s: Lists, script: Script, l: Node)
    requires l in s.emitting
    ensures var (s', t) := AfterScript(s, script); l in s'.emitting || Served(l, t)
    decreases script
  {
    match script
    case Done =>
    case Add(x, next) =>
      ScriptServes(if Has(s, x) then s else s.(listeners := s.listeners + [x]), next, l);
    case Remove(x, next) =>
      if !Has(s, x) {
        ScriptServes(s, next, l);
      } else if x != l {
        DelMembers(s.emitting, x, l);
        ScriptServes(Lists(Del(s.listeners, x), Del(s.emitting, x)), next, l);
      } else {
        assert Removed(l) in AfterScript(s, script).1;
      }
    case Emit(answers, next) =>
      CallsServe(Taken(s), answers, l);
      assert forall e <- AfterCalls(Taken(s), answers).1 :: e in AfterScript(s, script).1;
  }

  /** An emission calls every listener there is at its start, itself or by an emission
      inside it, unless that one is removed; and it ends with nobody left to call. */
  lemma {:induction false} CallsServe(s: Lists, answers: Answers, l: Node)
    ensures AfterCalls(s, answers).0.emitting == []
    ensures l in s.emitting ==> Served(l, AfterCalls(s, answers).1)
    decreases answers
  {
    CallsMembers(s.emitting, l);
    if s.emitting != [] && answers.Then? {
      var (s1, t1) := AfterScript(Passed(s), answers.first);
      CallsServe(s1, answers.rest, l);
      if l in s.emitting[1..] {
        ScriptServes(Passed(s), answers.first, l);
      }
    }
  }

  // ---------- Nobody is skipped ----------

  /** Each listener is in one list, once. */
  ghost predicate Apart(s: Lists) {
    Distinct(s.listeners) && Distinct(s.emitting) && forall l <- s.listeners :: l !in s.emitting
  }

  /** `l` has been served, or `y` has lost its place behind it. */
  predicate Decided(events: seq<Event>, l: Node, y: Node) {
    Served(l, events) || Removed(y) in events
  }

  /** `y` is not called before that is decided. */
  ghost predicate InTurn(events: seq<Event>, l: Node, y: Node) {
    forall k | 0 <= k < |events| && events[k] == Called(y) :: Decided(events[..k], l, y)
  }

  lemma InTurnConcat(a: seq<Event>, b: seq<Event>, l: Node, y: Node)
    requires InTurn(a, l, y) && (Decided(a, l, y) || InTurn(b, l, y))
    ensures InTurn(a + b, l, y)
    ensures Decided(a, l, y) || Decided(b, l, y) ==> Decided(a + b, l, y)
  {
    forall k | 0 <= k < |a + b| && (a + b)[k] == Called(y)
      ensures Decided((a + b)[..k], l, y)
    {
      if k < |a| {
        assert (a + b)[..k] == a[..k];
      } else {
        assert (a + b)[..k] == a + b[..k - |a|];
      }
    }
  }

  lemma {:induction false} AheadBehind(front: seq<Node>, list: seq<Node>, l: Node, y: Node)
    requires Ahead(list, l, y)
    ensures Ahead(front + list, l, y)
    decreases |front|
  {
    if front == [] {
      assert front + list == list;
    } else {
      AheadMembers(list, l, y);
      AheadBehind(front[1..], list, l, y);
      assert (front + list)[1..] == front[1..] + list;
    }
  }

  lemma DistinctConcat(a: seq<Node>, b: seq<Node>)
    requires Distinct(a) && Distinct(b) && forall l <- a :: l !in b
    ensures Distinct(a + b)
  {
    forall i, j | 0 <= i < j < |a + b|
      ensures (a + b)[i] != (a + b)[j]
    {
      if i < |a| <= j {
        assert a[i] in a && b[j - |a|] in b;
      }
    }
  }

  lemma TakenApart(s: Lists)
    requires Apart(s)
    ensures Apart(Taken(s))
  {
    DistinctConcat(s.listeners, s.emitting);
  }

  lemma PassedApart(s: Lists)
    requires Apart(s) && s.emitting != []
    ensures Apart(Passed(s))
  {
    DistinctConcat([s.emitting[0]], s.listeners);
  }

  lemma AddedApart(s: Lists, x: Node)
    requires Apart(s) && !Has(s, x)
    ensures Apart(s.(listeners := s.listeners + [x]))
  {
    DistinctConcat(s.listeners, [x]);
  }

  lemma RemovedApart(s: Lists, x: Node)
    requires Apart(s)
    ensures Apart(Lists(Del(s.listeners, x), Del(s.emitting, x)))
  {
    DelKeepsOrder(s.listeners, x, x, x);
    DelKeepsOrder(s.emitting, x, x, x);
    forall l <- Del(s.listeners, x)
      ensures l !in Del(s.emitting, x)
    {
      DelMembers(s.listeners, x, l);
      DelMembers(s.emitting, x, l);
    }
  }

  lemma {:induction false} ReversedMembers(list: seq<Node>, l: Node)
    ensures l in Reversed(list) <==> l in list
    decreases |list|
  {
    if list != [] {
      ReversedMembers(list[1..], l);
    }
  }

  lemma {:induction false} ReversedDistinct(list: seq<Node>)
    requires Distinct(list)
    ensures Distinct(Reversed(list))
    decreases |list|
  {
    if list != [] {
      ReversedDistinct(list[1..]);
      ReversedMembers(list[1..], list[0]);
      assert list[0] !in list[1..];
    }
  }

  lemma SilentApart(s: Lists)
    requires Apart(s)
    ensures Apart(Lists(Reversed(s.emitting) + s.listeners, []))
  {
    ReversedDistinct(s.emitting);
    forall l <- Reversed(s.emitting)
      ensures l !in s.listeners
    {
      ReversedMembers(s.emitting, l);
    }
    DistinctConcat(Reversed(s.emitting), s.listeners);
  }

  lemma {:induction false} ScriptApart(s: Lists, script: Script)
    requires Apart(s)
    ensures Apart(AfterScript(s, script).0)
    decreases script
  {
    match script
    case Done =>
    case Add(x, next) =>
      if Has(s, x) {
        ScriptApart(s, next);
      } else {
        AddedApart(s, x);
        ScriptApart(s.(listeners := s.listeners + [x]), next);
      }
    case Remove(x, next) =>
      RemovedApart(s, x);
      ScriptApart(if Has(s, x) then Lists(Del(s.listeners, x), Del(s.emitting, x)) else s, next);
    case Emit(answers, next) =>
      TakenApart(s);
      CallsApart(Taken(s), answers);
      ScriptApart(AfterCalls(Taken(s), answers).0, next);
  }

  lemma {:induction false} CallsApart(s: Lists, answers: Answers)
    requires Apart(s)
    ensures Apart(AfterCalls(s, answers).0)
    decreases answers
  {
    if s.emitting != [] {
      if answers.Silent? {
        SilentApart(s);
      } else {
        PassedApart(s);
        ScriptApart(Passed(s), answers.first);
        CallsApart(AfterScript(Passed(s), answers.first).0, answers.rest);
      }
    }
  }

  lemma {:induction false} CallsInTurn(list: seq<Node>, l: Node, y: Node)
    requires Distinct(list) && Ahead(list, l, y)
    ensures InTurn(Calls(list), l, y)
    decreases |list|
  {
    var t := Calls(list);
    assert t == [t[0]] + t[1..] && t[1..] == Calls(list[1..]);
    AheadMembers(list, l, y);
    if list[0] != l {
      AheadMembers(list[1..], l, y);
      CallsInTurn(list[1..], l, y);
    }
    InTurnConcat([t[0]], t[1..], l, y);
  }

  lemma {:induction false} ScriptInTurn(s: Lists, script: Script, l: Node, y: Node)
    requires Apart(s) && Ahead(s.emitting, l, y)
    ensures var (s', t) := AfterScript(s, script);
            InTurn(t, l, y) && (Decided(t, l, y) || Ahead(s'.emitting, l, y))
    decreases script
  {
    match script
    case Done =>
    case Add(x, next) =>
      if Has(s, x) {
        ScriptInTurn(s, next, l, y);
      } else {
        AddedApart(s, x);
        var s1 := s.(listeners := s.listeners + [x]);
        ScriptInTurn(s1, next, l, y);
        InTurnConcat([Added(x)], AfterScript(s1, next).1, l, y);
      }
    case Remove(x, next) =>
      if !Has(s, x) {
        ScriptInTurn(s, next, l, y);
      } else {
        RemovedApart(s, x);
        var s1 := Lists(Del(s.listeners, x), Del(s.emitting, x));
        DelKeepsOrder(s.emitting, x, l, y);
        if x != l && x != y {
          ScriptInTurn(s1, next, l, y);
        }
        InTurnConcat([Removed(x)], AfterScript(s1, next).1, l, y);
      }
    case Emit(answers, next) =>
      EmitInTurn(s, answers, l, y);
      InTurnConcat(AfterCalls(Taken(s), answers).1, AfterScript(AfterCalls(Taken(s), answers).0, next).1, l, y);
  }

  /** An emission inside another one puts those already called in front, and decides. */
  lemma {:induction false} EmitInTurn(s: Lists, answers: Answers, l: Node, y: Node)
    requires Apart(s) && Ahead(s.emitting, l, y)
    ensures var t := AfterCalls(Taken(s), answers).1; InTurn(t, l, y) && Decided(t, l, y)
    decreases answers, 1
  {
    TakenApart(s);
    AheadBehind(s.listeners, s.emitting, l, y);
    NobodySkipped(Taken(s), answers, l, y);
    AheadMembers(s.emitting, l, y);
    CallsServe(Taken(s), answers, l);
  }

  /** Nobody is called while one in front of it is still to be called: that one has been
      called or removed by then, or the one behind was removed itself and came again. */
  lemma {:induction false} NobodySkipped(s: Lists, answers: Answers, l: Node, y: Node)
    requires Apart(s) && Ahead(s.emitting, l, y)
    ensures InTurn(AfterCalls(s, answers).1, l, y)
    decreases answers, 0
  {
    AheadMembers(s.emitting, l, y);
    if answers.Silent? {
      CallsInTurn(s.emitting, l, y);
    } else {
      var first := s.emitting[0];
      var (s1, t1) := AfterScript(Passed(s), answers.first);
      var t2 := AfterCalls(s1, answers.rest).1;
      PassedApart(s);
      ScriptApart(Passed(s), answers.first);
      if first != l {
        AheadMembers(s.emitting[1..], l, y);
        ScriptInTurn(Passed(s), answers.first, l, y);
        if !Decided(t1, l, y) {
          NobodySkipped(s1, answers.rest, l, y);
        }
        InTurnConcat(t1, t2, l, y);
      }
      InTurnConcat([Called(first)], t1 + t2, l, y);
      assert [Called(first)] + t1 + t2 == [Called(first)] + (t1 + t2);
    }
  }

  predicate Flat(script: Script) {
    match script
    case Done => true
    case Add(_, next) => Flat(next)
    case Remove(_, next) => Flat(next)
    case Emit(_, _) => false
  }

  predicate AllFlat(answers: Answers) {
    answers.Then? ==> Flat(answers.first) && AllFlat(answers.rest)
  }

  lemma {:induction false} FlatScript(s: Lists, script: Script, l: Node)
    requires Flat(script) && l !in s.emitting
    ensures var (s', t) := AfterScript(s, script); l !in s'.emitting && Called(l) !in t
    decreases script
  {
    match script
    case Done =>
    case Add(x, next) => FlatScript(if Has(s, x) then s else s.(listeners := s.listeners + [x]), next, l);
    case Remove(x, next) =>
      DelMembers(s.emitting, x, l);
      FlatScript(if Has(s, x) then Lists(Del(s.listeners, x), Del(s.emitting, x)) else s, next, l);
  }

  /** Unless handlers emit again, nobody added during an emission is called by it. */
  lemma {:induction false} AddedAreNotCalled(s: Lists, answers: Answers, l: Node)
    requires AllFlat(answers) && l !in s.emitting
    ensures Called(l) !in AfterCalls(s, answers).1
    decreases answers
  {
    CallsMembers(s.emitting, l);
    if s.emitting != [] && answers.Then? {
      FlatScript(Passed(s), answers.first, l);
      AddedAreNotCalled(AfterScript(Passed(s), answers.first).0, answers.rest, l);
    }
  }

  // ---------- The order afterwards ----------

  /** Two listeners on their way to the opposite order. */
  ghost predicate Turning(s: Lists, x: Node, y: Node) {
    || Ahead(s.emitting, x, y)
    || (x in s.listeners && y in s.emitting)
    || Ahead(s.listeners, y, x)
  }

  lemma {:induction false} AheadInFront(list: seq<Node>, more: seq<Node>, x: Node, y: Node)
    requires Ahead(list, x, y)
    ensures Ahead(list + more, x, y)
    decreases |list|
  {
    assert (list + more)[1..] == list[1..] + more;
    if list[0] != x {
      AheadInFront(list[1..], more, x, y);
    }
  }

  lemma TurningPasses(s: Lists, x: Node, y: Node)
    requires Apart(s) && s.emitting != [] && Turning(s, x, y)
    ensures Turning(Passed(s), x, y)
  {
    if Ahead(s.listeners, y, x) {
      AheadBehind([s.emitting[0]], s.listeners, y, x);
    } else if Ahead(s.emitting, x, y) && s.emitting[0] != x {
      AheadMembers(s.emitting[1..], x, y);
    }
  }

  lemma TurningRemoves(s: Lists, l: Node, x: Node, y: Node)
    requires Apart(s) && Turning(s, x, y) && l != x && l != y
    ensures Turning(Lists(Del(s.listeners, l), Del(s.emitting, l)), x, y)
  {
    DelKeepsOrder(s.emitting, l, x, y);
    DelKeepsOrder(s.listeners, l, y, x);
    DelMembers(s.listeners, l, x);
    DelMembers(s.emitting, l, y);
  }

  lemma {:induction false} ScriptTurning(s: Lists, script: Script, x: Node, y: Node)
    requires Apart(s) && Flat(script) && Turning(s, x, y)
    ensures var (s', t) := AfterScript(s, script);
            Removed(x) in t || Removed(y) in t || Turning(s', x, y)
    decreases script
  {
    match script
    case Done =>
    case Add(l, next) =>
      if Has(s, l) {
        ScriptTurning(s, next, x, y);
      } else {
        AddedApart(s, l);
        if Ahead(s.listeners, y, x) {
          AheadInFront(s.listeners, [l], y, x);
        }
        ScriptTurning(s.(listeners := s.listeners + [l]), next, x, y);
      }
    case Remove(l, next) =>
      if !Has(s, l) {
        ScriptTurning(s, next, x, y);
      } else if l != x && l != y {
        RemovedApart(s, l);
        TurningRemoves(s, l, x, y);
        ScriptTurning(Lists(Del(s.listeners, l), Del(s.emitting, l)), next, x, y);
      } else {
        assert Removed(l) in AfterScript(s, script).1;
      }
  }

  /** Handlers may add and remove: two listeners that stay, and are not removed to come
      again, are in the opposite order afterwards. */
  lemma {:induction false} SurvivorsAreReversed(s: Lists, answers: Answers, x: Node, y: Node)
    requires Apart(s) && AllFlat(answers) && Turning(s, x, y)
    ensures var (s', t) := AfterCalls(s, answers);
            Removed(x) in t || Removed(y) in t || Ahead(s'.listeners, y, x)
    decreases answers, |s.emitting|
  {
    if s.emitting != [] {
      PassedApart(s);
      TurningPasses(s, x, y);
      if answers.Silent? {
        SilentStep(s);
        SurvivorsAreReversed(Passed(s), Silent, x, y);
      } else {
        var (s1, t1) := AfterScript(Passed(s), answers.first);
        ScriptTurning(Passed(s), answers.first, x, y);
        ScriptApart(Passed(s), answers.first);
        if Turning(s1, x, y) {
          SurvivorsAreReversed(s1, answers.rest, x, y);
        }
      }
    }
  }

  /** An emission whose handlers change nothing calls everyone in order, and leaves the
      listeners in the opposite order; a second one calls them that way round. */
  lemma {:induction false} OrderIsReversed(list: seq<Node>)
    ensures AfterCalls(Taken(Lists(list, [])), Silent) == (Lists(Reversed(list), []), Calls(list))
    ensures AfterCalls(Taken(Lists(Reversed(list), [])), Silent) == (Lists(list, []), Calls(Reversed(list)))
  {
    assert list + [] == list && Reversed(list) + [] == Reversed(list);
    ReversedTwice(list);
  }

  lemma {:induction false} ReversedAppend(list: seq<Node>, l: Node)
    ensures Reversed(list + [l]) == [l] + Reversed(list)
    decreases |list|
  {
    if list == [] {
      assert list + [l] == [l] && [l][1..] == [];
    } else {
      ReversedAppend(list[1..], l);
      assert (list + [l])[1..] == list[1..] + [l];
    }
  }

  lemma {:induction false} ReversedTwice(list: seq<Node>)
    ensures Reversed(Reversed(list)) == list
    decreases |list|
  {
    if list != [] {
      ReversedTwice(list[1..]);
      ReversedAppend(Reversed(list[1..]), list[0]);
    }
  }

  // ---------- The signal ----------

  class PrivSignal {
    var listenerList: seq<Node>
    var emitList: seq<Node>

    ghost function View(): Lists
      reads this
    {
      Lists(listenerList, emitList)
    }

    constructor ()
      ensures View() == Lists([], [])
    {
      listenerList, emitList := [], [];
    }

    method RunScript(script: Script) returns (events: seq<Event>)
      modifies this
      ensures (View(), events) == AfterScript(old(View()), script)
      decreases ScriptSize(script), 0
    {
      match script
      case Done => events := [];
      case Add(l, next) =>
        if l in listenerList || l in emitList {
          events := RunScript(next);
        } else {
          listenerList := listenerList + [l];
          var more := RunScript(next);
          events := [Added(l)] + more;
        }
      case Remove(l, next) =>
        if l in listenerList || l in emitList {
          listenerList, emitList := Del(listenerList, l), Del(emitList, l);
          var more := RunScript(next);
          events := [Removed(l)] + more;
        } else {
          events := RunScript(next);
        }
      case Emit(answers, next) =>
        var first := EmitSignal(answers);
        var more := RunScript(next);
        events := first + more;
    }

    method EmitSignal(answers: Answers) returns (events: seq<Event>)
      modifies this
      ensures (View(), events) == AfterCalls(Taken(old(View())), answers)
      decreases AnswersSize(answers), 1
    {
      listenerList, emitList := [], listenerList + emitList;
      ghost var start := View();
      events := [];
      var rest := answers;
      assert [] + AfterCalls(start, answers).1 == AfterCalls(start, answers).1;
      while emitList != []
        invariant AnswersSize(rest) <= AnswersSize(answers)
        invariant AfterCalls(start, answers).0 == AfterCalls(View(), rest).0
        invariant AfterCalls(start, answers).1 == events + AfterCalls(View(), rest).1
        decreases AnswersSize(rest), |emitList|
      {
        ghost var now, was := View(), rest;
        var called := [Called(emitList[0])];
        listenerList, emitList := [emitList[0]] + listenerList, emitList[1..];
        if rest.Then? {
          var more := RunScript(rest.first);
          called, rest := called + more, rest.rest;
        } else {
          SilentStep(now);
        }
        assert AfterCalls(now, was).1 == called + AfterCalls(View(), rest).1;
        Associative(events, called, AfterCalls(View(), rest).1);
        events := events + called;
      }
      assert events + [] == events;
    }
  }

  lemma SilentStep(s: Lists)
    requires s.emitting != []
    ensures AfterCalls(s, Silent)
      == (AfterCalls(Passed(s), Silent).0, [Called(s.emitting[0])] + AfterCalls(Passed(s), Silent).1)
  {
    var e, l := s.emitting, s.listeners;
    assert Reversed(e) + l == Reversed(e[1..]) + ([e[0]] + l);
    if e[1..] == [] {
      assert Reversed(e[1..]) + ([e[0]] + l) == [e[0]] + l;
      assert Calls(e) == [Called(e[0])] + [];
    }
  }
}
