/** Signals: whoever listens is notified of an emission, and may, while it goes on, add
    and remove listeners and emit the signal again. */
module Signals {
  import opened LinkedLists

  /** What a handler does. Its own emissions come with what the handlers they notify do. */
  datatype Script =
    | Done
    | Add(l: Node, next: Script)
    | Remove(l: Node, next: Script)
    | Emit(answers: Answers, next: Script)

  /** What the handlers of one emission do, one after the other. */
  datatype Answers = Silent | Then(first: Script, rest: Answers)

  datatype Event = Called(l: Node) | Added(l: Node) | Removed(l: Node)

  function Rest(a: Answers): Answers {
    if a.Then? then a.rest else Silent
  }

  // ---------- Edits ----------

  function Del(list: seq<Node>, l: Node): seq<Node> {
    if list == [] then []
    else if list[0] == l then Del(list[1..], l)
    else [list[0]] + Del(list[1..], l)
  }

  function EditOne(list: seq<Node>, e: Event): seq<Node> {
    match e
    case Added(l) => list + [l]
    case Removed(l) => Del(list, l)
    case Called(_) => list
  }

  /** The list after what has happened. */
  function Edit(list: seq<Node>, events: seq<Event>): seq<Node>
    decreases |events|
  {
    if events == [] then list else Edit(EditOne(list, events[0]), events[1..])
  }

  /** What is left of the list after what has happened. */
  function Keep(list: seq<Node>, events: seq<Event>): seq<Node>
    decreases |events|
  {
    if events == [] then list
    else Keep(if events[0].Removed? then Del(list, events[0].l) else list, events[1..])
  }

  // ---------- What an emission means ----------

  /** What happens when a handler runs. It adds listeners that are not in the list, and
      removes listeners that are. */
  function ScriptTrace(list: seq<Node>, script: Script): seq<Event>
    decreases script, 0
  {
    match script
    case Done => []
    case Add(l, next) =>
      if l in list || l.marker then ScriptTrace(list, next) else [Added(l)] + ScriptTrace(list + [l], next)
    case Remove(l, next) =>
      if l in list && !l.marker then [Removed(l)] + ScriptTrace(Del(list, l), next) else ScriptTrace(list, next)
    case Emit(answers, next) =>
      var t := EmitTrace(list, list, answers);
      t + ScriptTrace(Edit(list, t), next)
  }

  /** An emission calls those in `pending`, of which none was added since its start, but
      not those removed before it gets to them. Markers of other emissions do nothing. */
  function EmitTrace(list: seq<Node>, pending: seq<Node>, answers: Answers): seq<Event>
    decreases answers, |pending| + 1
  {
    if pending == [] then []
    else if pending[0].marker then EmitTrace(list, pending[1..], answers)
    else
      var t := if answers.Then? then ScriptTrace(list, answers.first) else [];
      KeepShrinks(pending[1..], t);
      [Called(pending[0])] + t + EmitTrace(Edit(list, t), Keep(pending[1..], t), Rest(answers))
  }

  lemma {:induction false} DelShrinks(list: seq<Node>, l: Node)
    ensures |Del(list, l)| <= |list|
    decreases |list|
  {
    if list != [] {
      DelShrinks(list[1..], l);
    }
  }

  lemma {:induction false} KeepShrinks(list: seq<Node>, events: seq<Event>)
    ensures |Keep(list, events)| <= |list|
    decreases |events|
  {
    if events != [] {
      if events[0].Removed? {
        DelShrinks(list, events[0].l);
      }
      KeepShrinks(if events[0].Removed? then Del(list, events[0].l) else list, events[1..]);
    }
  }

  // ---------- Lists with markers in them ----------

  function Strip(list: seq<Node>): seq<Node> {
    if list == [] then []
    else if list[0].marker then Strip(list[1..])
    else [list[0]] + Strip(list[1..])
  }

  lemma {:induction false} DelConcat(a: seq<Node>, b: seq<Node>, l: Node)
    ensures Del(a + b, l) == Del(a, l) + Del(b, l)
    decreases |a|
  {
    if a == [] {
      assert a + b == b;
    } else {
      DelConcat(a[1..], b, l);
      assert (a + b)[1..] == a[1..] + b;
    }
  }

  lemma {:induction false} StripConcat(a: seq<Node>, b: seq<Node>)
    ensures Strip(a + b) == Strip(a) + Strip(b)
    decreases |a|
  {
    if a == [] {
      assert a + b == b;
    } else {
      StripConcat(a[1..], b);
      assert (a + b)[1..] == a[1..] + b;
    }
  }

  lemma {:induction false} StripDel(list: seq<Node>, l: Node)
    ensures Strip(Del(list, l)) == Del(Strip(list), l)
    decreases |list|
  {
    if list != [] {
      StripDel(list[1..], l);
    }
  }

  lemma {:induction false} StripMembers(list: seq<Node>, l: Node)
    ensures l in Strip(list) <==> l in list && !l.marker
    decreases |list|
  {
    if list != [] {
      StripMembers(list[1..], l);
    }
  }

  /** Handlers add and remove listeners only. */
  ghost predicate NoMarkers(events: seq<Event>) {
    forall k | 0 <= k < |events| :: !events[k].l.marker
  }

  lemma {:induction false} StripEdit(list: seq<Node>, events: seq<Event>)
    requires NoMarkers(events)
    ensures Strip(Edit(list, events)) == Edit(Strip(list), events)
    decreases |events|
  {
    if events != [] {
      var l := events[0].l;
      StripConcat(list, [l]);
      StripDel(list, l);
      assert Strip([l]) == [l];
      StripEdit(EditOne(list, events[0]), events[1..]);
    }
  }

  lemma {:induction false} StripKeep(list: seq<Node>, events: seq<Event>)
    ensures Strip(Keep(list, events)) == Keep(Strip(list), events)
    decreases |events|
  {
    if events != [] {
      if events[0].Removed? {
        StripDel(list, events[0].l);
      }
      StripKeep(if events[0].Removed? then Del(list, events[0].l) else list, events[1..]);
    }
  }

  lemma {:induction false} EditConcat(list: seq<Node>, events: seq<Event>, more: seq<Event>)
    ensures Edit(list, events + more) == Edit(Edit(list, events), more)
    decreases |events|
  {
    if events == [] {
      assert events + more == more;
    } else {
      EditConcat(EditOne(list, events[0]), events[1..], more);
      assert (events + more)[1..] == events[1..] + more;
    }
  }

  /** Markers change nothing about what happens. */
  lemma {:induction false} ScriptStripped(list: seq<Node>, script: Script)
    ensures ScriptTrace(list, script) == ScriptTrace(Strip(list), script)
    ensures NoMarkers(ScriptTrace(list, script))
    decreases script, 0
  {
    match script
    case Done =>
    case Add(l, next) =>
      StripMembers(list, l);
      if l in list || l.marker {
        ScriptStripped(list, next);
      } else {
        ScriptStripped(list + [l], next);
        StripConcat(list, [l]);
        assert Strip([l]) == [l];
      }
    case Remove(l, next) =>
      StripMembers(list, l);
      if l in list && !l.marker {
        ScriptStripped(Del(list, l), next);
        StripDel(list, l);
      } else {
        ScriptStripped(list, next);
      }
    case Emit(answers, next) =>
      var t := EmitTrace(list, list, answers);
      EmitStripped(list, list, answers);
      StripEdit(list, t);
      ScriptStripped(Edit(list, t), next);
  }

  lemma {:induction false} EmitStripped(list: seq<Node>, pending: seq<Node>, answers: Answers)
    ensures EmitTrace(list, pending, answers) == EmitTrace(Strip(list), Strip(pending), answers)
    ensures NoMarkers(EmitTrace(list, pending, answers))
    decreases answers, |pending| + 1
  {
    if pending == [] {
    } else if pending[0].marker {
      EmitStripped(list, pending[1..], answers);
    } else {
      var t := if answers.Then? then ScriptTrace(list, answers.first) else [];
      if answers.Then? {
        ScriptStripped(list, answers.first);
      }
      StripEdit(list, t);
      StripKeep(pending[1..], t);
      KeepShrinks(pending[1..], t);
      EmitStripped(Edit(list, t), Keep(pending[1..], t), Rest(answers));
      assert Strip(pending)[1..] == Strip(pending[1..]);
    }
  }

  // ---------- What is notified ----------

  /** A call made by an emission itself, and what had happened since its start. */
  datatype Turn = Turn(l: Node, before: seq<Event>)

  /** The calls of an emission, without those of emissions inside it. */
  ghost function Turns(list: seq<Node>, pending: seq<Node>, answers: Answers, before: seq<Event>): seq<Turn>
    decreases answers, |pending| + 1
  {
    if pending == [] then []
    else if pending[0].marker then Turns(list, pending[1..], answers, before)
    else
      var t := if answers.Then? then ScriptTrace(list, answers.first) else [];
      KeepShrinks(pending[1..], t);
      [Turn(pending[0], before)]
      + Turns(Edit(list, t), Keep(pending[1..], t), Rest(answers), before + [Called(pending[0])] + t)
  }

  ghost predicate InOrder(turns: seq<Turn>, list: seq<Node>)
    decreases |list|
  {
    if list == [] then turns == []
    else if turns != [] && turns[0].l == list[0] then InOrder(turns[1..], list[1..])
    else InOrder(turns, list[1..])
  }

  predicate WasRemoved(l: Node, events: seq<Event>) {
    Removed(l) in events
  }

  lemma {:induction false} DelMembers(list: seq<Node>, l: Node, x: Node)
    ensures x in Del(list, l) <==> x in list && x != l
    decreases |list|
  {
    if list != [] {
      DelMembers(list[1..], l, x);
    }
  }

  lemma {:induction false} KeepMembers(list: seq<Node>, events: seq<Event>, x: Node)
    ensures x in Keep(list, events) <==> x in list && !WasRemoved(x, events)
    decreases |events|
  {
    if events != [] {
      if events[0].Removed? {
        DelMembers(list, events[0].l, x);
      }
      KeepMembers(if events[0].Removed? then Del(list, events[0].l) else list, events[1..], x);
    }
  }

  lemma {:induction false} InOrderDel(turns: seq<Turn>, list: seq<Node>, l: Node)
    requires InOrder(turns, Del(list, l))
    ensures InOrder(turns, list)
    decreases |list|
  {
    if list != [] {
      if list[0] == l {
        InOrderDel(turns, list[1..], l);
        InOrderSkip(turns, list);
      } else if turns != [] && turns[0].l == list[0] {
        InOrderDel(turns[1..], list[1..], l);
      } else {
        InOrderDel(turns, list[1..], l);
      }
    }
  }

  /** Turns in the order of a tail are in the order of the list. */
  lemma {:induction false} InOrderSkip(turns: seq<Turn>, list: seq<Node>)
    requires list != [] && InOrder(turns, list[1..])
    ensures InOrder(turns, list)
    decreases |list|, 0
  {
    if turns != [] && turns[0].l == list[0] {
      InOrderFewer(turns, list[1..]);
    }
  }

  lemma {:induction false} InOrderFewer(turns: seq<Turn>, list: seq<Node>)
    requires turns != [] && InOrder(turns, list)
    ensures InOrder(turns[1..], list)
    decreases |list|, 1
  {
    if list != [] {
      if turns[0].l == list[0] {
        InOrderSkip(turns[1..], list);
      } else {
        InOrderFewer(turns, list[1..]);
        InOrderSkip(turns[1..], list);
      }
    }
  }

  lemma {:induction false} InOrderKeep(turns: seq<Turn>, list: seq<Node>, events: seq<Event>)
    requires InOrder(turns, Keep(list, events))
    ensures InOrder(turns, list)
    decreases |events|
  {
    if events != [] {
      if events[0].Removed? {
        InOrderKeep(turns, Del(list, events[0].l), events[1..]);
        InOrderDel(turns, list, events[0].l);
      } else {
        InOrderKeep(turns, list, events[1..]);
      }
    }
  }

  /** Calls go along the list as it was at the start: nobody added meanwhile is called,
      and nobody twice. */
  lemma {:induction false} NotifiedInOrder(list: seq<Node>, pending: seq<Node>, answers: Answers, before: seq<Event>)
    ensures InOrder(Turns(list, pending, answers, before), pending)
    decreases answers, |pending| + 1
  {
    if pending != [] {
      if pending[0].marker {
        NotifiedInOrder(list, pending[1..], answers, before);
        InOrderSkip(Turns(list, pending[1..], answers, before), pending);
      } else {
        var t := if answers.Then? then ScriptTrace(list, answers.first) else [];
        KeepShrinks(pending[1..], t);
        var before' := before + [Called(pending[0])] + t;
        NotifiedInOrder(Edit(list, t), Keep(pending[1..], t), Rest(answers), before');
        var turns := Turns(Edit(list, t), Keep(pending[1..], t), Rest(answers), before');
        InOrderKeep(turns, pending[1..], t);
        assert ([Turn(pending[0], before)] + turns)[1..] == turns;
      }
    }
  }

  ghost predicate HasTurn(turns: seq<Turn>, l: Node) {
    exists k :: 0 <= k < |turns| && turns[k].l == l
  }

  /** A listener whose turn comes has not been removed since the start; one whose turn
      does not come has been. */
  lemma {:induction false} NotifiedUnlessRemoved(list: seq<Node>, pending: seq<Node>, answers: Answers,
                                                 before: seq<Event>, l: Node)
    requires forall x <- pending :: !WasRemoved(x, before)
    ensures forall turn <- Turns(list, pending, answers, before) :: !WasRemoved(turn.l, turn.before)
    ensures l in pending && !l.marker ==>
      HasTurn(Turns(list, pending, answers, before), l) || WasRemoved(l, EmitTrace(list, pending, answers))
    decreases answers, |pending| + 1
  {
    if pending != [] {
      if pending[0].marker {
        NotifiedUnlessRemoved(list, pending[1..], answers, before, l);
      } else {
        var t := if answers.Then? then ScriptTrace(list, answers.first) else [];
        KeepShrinks(pending[1..], t);
        var before' := before + [Called(pending[0])] + t;
        var rest := Keep(pending[1..], t);
        forall x <- rest
          ensures !WasRemoved(x, before')
        {
          KeepMembers(pending[1..], t, x);
          assert x in pending && !WasRemoved(x, before) && !WasRemoved(x, t);
        }
        NotifiedUnlessRemoved(Edit(list, t), rest, Rest(answers), before', l);
        KeepMembers(pending[1..], t, l);
        var turns := Turns(Edit(list, t), rest, Rest(answers), before');
        assert Turns(list, pending, answers, before) == [Turn(pending[0], before)] + turns;
        if HasTurn(turns, l) {
          var k :| 0 <= k < |turns| && turns[k].l == l;
          assert ([Turn(pending[0], before)] + turns)[k + 1].l == l;
        } else if l == pending[0] {
          assert ([Turn(pending[0], before)] + turns)[0].l == l;
        }
      }
    }
  }

  /** A turn is a call of the emission, with what came before it. */
  lemma {:induction false} TurnsAreInTrace(list: seq<Node>, pending: seq<Node>, answers: Answers, before: seq<Event>)
    ensures forall turn <- Turns(list, pending, answers, before) ::
      turn.before + [Called(turn.l)] <= before + EmitTrace(list, pending, answers)
    decreases answers, |pending| + 1
  {
    if pending != [] {
      if pending[0].marker {
        TurnsAreInTrace(list, pending[1..], answers, before);
      } else {
        var t := if answers.Then? then ScriptTrace(list, answers.first) else [];
        KeepShrinks(pending[1..], t);
        var before' := before + [Called(pending[0])] + t;
        var rest := EmitTrace(Edit(list, t), Keep(pending[1..], t), Rest(answers));
        TurnsAreInTrace(Edit(list, t), Keep(pending[1..], t), Rest(answers), before');
        assert before' + rest == before + EmitTrace(list, pending, answers);
      }
    }
  }

  lemma {:induction false} InOrderIsWithin(turns: seq<Turn>, list: seq<Node>)
    requires InOrder(turns, list)
    ensures forall turn <- turns :: turn.l in list
    decreases |list|
  {
    if list != [] {
      if turns != [] && turns[0].l == list[0] {
        InOrderIsWithin(turns[1..], list[1..]);
        assert turns == [turns[0]] + turns[1..];
      } else {
        InOrderIsWithin(turns, list[1..]);
      }
    }
  }

  ghost predicate Distinct(list: seq<Node>) {
    forall i, j | 0 <= i < j < |list| :: list[i] != list[j]
  }

  lemma {:induction false} InOrderOnce(turns: seq<Turn>, list: seq<Node>)
    requires InOrder(turns, list) && Distinct(list)
    ensures forall i, j | 0 <= i < j < |turns| :: turns[i].l != turns[j].l
    decreases |list|
  {
    if list != [] {
      if turns != [] && turns[0].l == list[0] {
        InOrderOnce(turns[1..], list[1..]);
        InOrderIsWithin(turns[1..], list[1..]);
        assert forall k | 0 < k < |turns| :: turns[k] in turns[1..];
      } else {
        InOrderOnce(turns, list[1..]);
      }
    }
  }

  /** `x` stands before `y`. */
  ghost predicate Ahead(list: seq<Node>, x: Node, y: Node) {
    list != [] && if list[0] == x then y in list[1..] else Ahead(list[1..], x, y)
  }

  lemma {:induction false} AheadMembers(list: seq<Node>, x: Node, y: Node)
    requires Ahead(list, x, y)
    ensures x in list && y in list
    decreases |list|
  {
    if list[0] != x {
      AheadMembers(list[1..], x, y);
    }
  }

  lemma {:induction false} DelKeepsOrder(list: seq<Node>, l: Node, x: Node, y: Node)
    requires Distinct(list)
    ensures Distinct(Del(list, l))
    ensures Ahead(list, x, y) && x != l && y != l ==> Ahead(Del(list, l), x, y)
    decreases |list|
  {
    if list != [] {
      DelKeepsOrder(list[1..], l, x, y);
      DelMembers(list[1..], l, list[0]);
      DelMembers(list[1..], l, y);
    }
  }

  lemma {:induction false} KeepKeepsOrder(list: seq<Node>, events: seq<Event>, x: Node, y: Node)
    requires Distinct(list)
    ensures Distinct(Keep(list, events))
    ensures Ahead(list, x, y) && !WasRemoved(x, events) && !WasRemoved(y, events) ==> Ahead(Keep(list, events), x, y)
    decreases |events|
  {
    if events != [] {
      if events[0].Removed? {
        DelKeepsOrder(list, events[0].l, x, y);
      }
      KeepKeepsOrder(if events[0].Removed? then Del(list, events[0].l) else list, events[1..], x, y);
    }
  }

  lemma {:induction false} BeforeGrows(list: seq<Node>, pending: seq<Node>, answers: Answers, before: seq<Event>)
    ensures forall turn <- Turns(list, pending, answers, before) :: before <= turn.before
    decreases answers, |pending| + 1
  {
    if pending != [] {
      if pending[0].marker {
        BeforeGrows(list, pending[1..], answers, before);
      } else {
        var t := if answers.Then? then ScriptTrace(list, answers.first) else [];
        KeepShrinks(pending[1..], t);
        BeforeGrows(Edit(list, t), Keep(pending[1..], t), Rest(answers), before + [Called(pending[0])] + t);
      }
    }
  }

  /** Whoever is passed over had been removed before anyone behind it was called. */
  ghost predicate PassedOver(turns: seq<Turn>, list: seq<Node>, l: Node) {
    forall turn <- turns | Ahead(list, l, turn.l) :: WasRemoved(l, turn.before)
  }

  /** Whoever is still pending after a handler is so in the same order. */
  lemma AheadAfter(pending: seq<Node>, t: seq<Event>, l: Node, y: Node)
    requires Distinct(pending) && Ahead(pending, l, y)
    ensures l in Keep(pending, t) && y in Keep(pending, t) ==> Ahead(Keep(pending, t), l, y)
  {
    KeepMembers(pending, t, l);
    KeepMembers(pending, t, y);
    KeepKeepsOrder(pending, t, l, y);
  }

  lemma {:induction false} NobodySkipped(list: seq<Node>, pending: seq<Node>, answers: Answers, before: seq<Event>,
                                        l: Node)
    requires Distinct(pending) && l in pending && !l.marker
    requires !HasTurn(Turns(list, pending, answers, before), l)
    ensures PassedOver(Turns(list, pending, answers, before), pending, l)
    decreases answers, |pending| + 1
  {
    var turns := Turns(list, pending, answers, before);
    if pending[0].marker {
      NobodySkipped(list, pending[1..], answers, before, l);
    } else {
      var t := if answers.Then? then ScriptTrace(list, answers.first) else [];
      KeepShrinks(pending[1..], t);
      var rest, before' := Keep(pending[1..], t), before + [Called(pending[0])] + t;
      var later := Turns(Edit(list, t), rest, Rest(answers), before');
      assert turns == [Turn(pending[0], before)] + later && turns[0].l == pending[0];
      assert forall k | 0 <= k < |later| :: turns[k + 1] == later[k];
      assert !HasTurn(later, l);
      BeforeGrows(Edit(list, t), rest, Rest(answers), before');
      NotifiedInOrder(Edit(list, t), rest, Rest(answers), before');
      InOrderIsWithin(later, rest);
      KeepKeepsOrder(pending[1..], t, l, l);
      KeepMembers(pending[1..], t, l);
      if l in rest {
        NobodySkipped(Edit(list, t), rest, Rest(answers), before', l);
      }
      assert l in rest || WasRemoved(l, before');
      forall turn <- turns | Ahead(pending, l, turn.l)
        ensures WasRemoved(l, turn.before)
      {
        AheadMembers(pending[1..], l, turn.l);
        assert turn in later;
        AheadAfter(pending[1..], t, l, turn.l);
      }
    }
  }

  /** An emission calls each listener that was there at its start, and has not been
      removed when its turn comes, once and in order, and nobody else. Its turn is over
      when anyone behind it is called, or when the emission ends. */
  lemma Emission(list: seq<Node>, answers: Answers)
    requires Distinct(list)
    ensures var turns, trace := Turns(list, list, answers, []), EmitTrace(list, list, answers);
            && InOrder(turns, list)
            && (forall i, j | 0 <= i < j < |turns| :: turns[i].l != turns[j].l)
            && (forall turn <- turns ::
                  !WasRemoved(turn.l, turn.before) && turn.before + [Called(turn.l)] <= trace)
            && (forall l <- list | !l.marker && !HasTurn(turns, l) ::
                  PassedOver(turns, list, l) && WasRemoved(l, trace))
  {
    var turns, trace := Turns(list, list, answers, []), EmitTrace(list, list, answers);
    NotifiedInOrder(list, list, answers, []);
    InOrderOnce(turns, list);
    TurnsAreInTrace(list, list, answers, []);
    assert [] + trace == trace;
    forall l
      ensures forall turn <- turns :: !WasRemoved(turn.l, turn.before)
      ensures l in list && !l.marker && !HasTurn(turns, l) ==> PassedOver(turns, list, l) && WasRemoved(l, trace)
    {
      NotifiedUnlessRemoved(list, list, answers, [], l);
      if l in list && !l.marker && !HasTurn(turns, l) {
        NobodySkipped(list, list, answers, [], l);
      }
    }
  }

  // ---------- On the linked list ----------

  function ScriptSize(script: Script): nat {
    match script
    case Done => 1
    case Add(_, next) => 1 + ScriptSize(next)
    case Remove(_, next) => 1 + ScriptSize(next)
    case Emit(answers, next) => 1 + AnswersSize(answers) + ScriptSize(next)
  }

  function AnswersSize(answers: Answers): nat {
    match answers
    case Silent => 1
    case Then(first, rest) => 1 + ScriptSize(first) + AnswersSize(rest)
  }

  ghost predicate Known(script: Script, nodes: set<Node>) {
    match script
    case Done => true
    case Add(l, next) => l in nodes && Known(next, nodes)
    case Remove(l, next) => l in nodes && Known(next, nodes)
    case Emit(answers, next) => AllKnown(answers, nodes) && Known(next, nodes)
  }

  ghost predicate AllKnown(answers: Answers, nodes: set<Node>) {
    answers.Then? ==> Known(answers.first, nodes) && AllKnown(answers.rest, nodes)
  }

  lemma {:induction false} EditOfTwo(a: seq<Node>, b: seq<Node>, events: seq<Event>)
    ensures Edit(a + b, events) == Keep(a, events) + Edit(b, events)
    decreases |events|
  {
    if events != [] {
      var l := events[0].l;
      DelConcat(a, b, l);
      assert (a + b) + [l] == a + (b + [l]);
      EditOfTwo(if events[0].Removed? then Del(a, l) else a, EditOne(b, events[0]), events[1..]);
    }
  }

  lemma {:induction false} KeepMarker(m: Node, b: seq<Node>, events: seq<Event>)
    requires m.marker && NoMarkers(events)
    ensures Edit([m] + b, events) == [m] + Edit(b, events)
    decreases |events|
  {
    if events != [] {
      var l := events[0].l;
      DelConcat([m], b, l);
      assert Del([m], l) == [m];
      assert ([m] + b) + [l] == [m] + (b + [l]);
      KeepMarker(m, EditOne(b, events[0]), events[1..]);
    }
  }

  /** The list during an emission: who has been passed, who is to come, who was added. */
  datatype Parts = Parts(passed: seq<Node>, pending: seq<Node>, added: seq<Node>)

  ghost function Marked(p: Parts, cursor: Node, end: Node): seq<Node> {
    p.passed + ([cursor] + (p.pending + ([end] + p.added)))
  }

  ghost function Plain(p: Parts): seq<Node> {
    p.passed + (p.pending + p.added)
  }

  ghost function EditParts(p: Parts, events: seq<Event>): Parts {
    Parts(Keep(p.passed, events), Keep(p.pending, events), Edit(p.added, events))
  }

  /** A handler sees the list with the markers in it, and leaves them where they are. */
  lemma HandlerOnParts(p: Parts, cursor: Node, end: Node, script: Script)
    requires cursor.marker && end.marker
    ensures var t := ScriptTrace(Plain(p), script);
            && ScriptTrace(Marked(p, cursor, end), script) == t
            && Edit(Marked(p, cursor, end), t) == Marked(EditParts(p, t), cursor, end)
            && Edit(Plain(p), t) == Plain(EditParts(p, t))
  {
    var t := ScriptTrace(Plain(p), script);
    StripMarked(p, cursor, end);
    ScriptStripped(Plain(p), script);
    ScriptStripped(Marked(p, cursor, end), script);
    EditOfTwo(p.passed, [cursor] + (p.pending + ([end] + p.added)), t);
    KeepMarker(cursor, p.pending + ([end] + p.added), t);
    EditOfTwo(p.pending, [end] + p.added, t);
    KeepMarker(end, p.added, t);
    EditOfTwo(p.passed, p.pending + p.added, t);
    EditOfTwo(p.pending, p.added, t);
  }

  lemma StripMarked(p: Parts, cursor: Node, end: Node)
    requires cursor.marker && end.marker
    ensures Strip(Marked(p, cursor, end)) == Strip(Plain(p))
  {
    StripConcat(p.passed, [cursor] + (p.pending + ([end] + p.added)));
    StripConcat([cursor], p.pending + ([end] + p.added));
    StripConcat(p.pending, [end] + p.added);
    StripConcat([end], p.added);
    StripConcat(p.passed, p.pending + p.added);
    StripConcat(p.pending, p.added);
  }

  method AddListener(list: LinkedList, l: Node)
    requires list.Valid() && l in list.nodes && l != list.head && l !in list.elems
    modifies list`elems, list.nodes
    ensures list.Valid() && list.elems == old(list.elems) + [l]
  {
    assert list.Linked(|list.elems|);
    list.Insert(list.head.prev, l, |list.elems|);
  }

  method RemoveListener(list: LinkedList, l: Node)
    requires list.Valid() && l in list.elems
    modifies list`elems, list.nodes
    ensures list.Valid() && list.elems == Del(old(list.elems), l)
  {
    ghost var i :| 0 <= i < |list.elems| && list.elems[i] == l;
    DelAt(list.elems, i);
    list.Remove(l, i);
  }

  lemma {:induction false} DelAbsent(list: seq<Node>, l: Node)
    requires l !in list
    ensures Del(list, l) == list
    decreases |list|
  {
    if list != [] {
      DelAbsent(list[1..], l);
    }
  }

  lemma {:induction false} DelAt(list: seq<Node>, i: nat)
    requires i < |list| && Distinct(list)
    ensures Del(list, list[i]) == list[..i] + list[i + 1..]
    decreases i
  {
    if i == 0 {
      DelAbsent(list[1..], list[0]);
    } else {
      DelAt(list[1..], i - 1);
      assert list[..i] == [list[0]] + list[1..][..i - 1];
    }
  }

  /** What holds of a list whose listeners may be among `known`. */
  ghost predicate Usable(list: LinkedList, known: set<Node>)
    reads list, list.nodes
  {
    list.Valid() && known <= list.nodes && list.head !in known
  }

  /** Runs a handler. The test whether a listener is linked stands for what the handler
      knows of it. */
  method RunScript(list: LinkedList, script: Script, ghost known: set<Node>) returns (events: seq<Event>)
    requires Usable(list, known) && Known(script, known)
    modifies list`elems, list`nodes, list.nodes
    ensures Usable(list, known) && old(list.nodes) <= list.nodes && fresh(list.nodes - old(list.nodes))
    ensures events == ScriptTrace(old(list.elems), script) && list.elems == Edit(old(list.elems), events)
    decreases ScriptSize(script), 0
  {
    match script
    case Done =>
      events := [];
    case Add(l, next) =>
      var linked := IsLinked(list, l);
      var more;
      if linked || l.marker {
        events := RunScript(list, next, known);
      } else {
        AddListener(list, l);
        more := RunScript(list, next, known);
        events := [Added(l)] + more;
      }
    case Remove(l, next) =>
      var linked := IsLinked(list, l);
      var more;
      if linked && !l.marker {
        RemoveListener(list, l);
        more := RunScript(list, next, known);
        events := [Removed(l)] + more;
      } else {
        events := RunScript(list, next, known);
      }
    case Emit(answers, next) =>
      var first := EmitMutable(list, answers, known);
      ghost var was := list.elems;
      var more := RunScript(list, next, known);
      EditConcat(old(list.elems), first, more);
      events := first + more;
  }

  method IsLinked(list: LinkedList, l: Node) returns (linked: bool)
    requires list.Valid() && l in list.nodes && l != list.head
    ensures linked <==> l in list.elems
  {
    linked := l.next != null;
    if l in list.elems {
      var i :| 0 <= i < |list.elems| && list.elems[i] == l;
      assert list.Linked(i + 1);
    }
  }

  /** Puts the markers at both ends. */
  method PutMarkers(list: LinkedList) returns (cursor: Node, end: Node)
    requires list.Valid()
    modifies list`elems, list`nodes, list.nodes
    ensures list.Valid() && fresh(cursor) && fresh(end) && cursor.marker && end.marker && cursor != end
    ensures list.nodes == old(list.nodes) + {cursor, end}
    ensures list.elems == Marked(Parts([], old(list.elems), []), cursor, end)
  {
    cursor := new Node(true);
    end := new Node(true);
    list.nodes := list.nodes + {cursor, end};
    assert forall i | 0 <= i <= |list.elems| :: old(list.Linked(i)) ==> list.Linked(i);
    list.Insert(list.head, cursor, 0);
    assert list.elems == [cursor] + old(list.elems);
    AddListener(list, end);
    assert list.elems == [] + ([cursor] + (old(list.elems) + ([end] + [])));
  }

  lemma CursorOut(p: Parts, cursor: Node, end: Node)
    ensures var m, n := Marked(p, cursor, end), |p.passed|;
            m[n] == cursor && m[..n] + m[n + 1..] == p.passed + (p.pending + ([end] + p.added))
  {
  }

  lemma CursorIn(passed: seq<Node>, pos: Node, cursor: Node, rest: seq<Node>)
    ensures var m, n := passed + ([pos] + rest), |passed| + 1;
            m[n - 1] == pos && m[..n] + [cursor] + m[n..] == (passed + [pos]) + ([cursor] + rest)
  {
    var m, n := passed + ([pos] + rest), |passed| + 1;
    assert m[..n] == passed + [pos] && m[n..] == rest;
  }

  lemma NextIsPending(list: LinkedList, cursor: Node, end: Node, p: Parts)
    requires list.Valid() && list.elems == Marked(p, cursor, end)
    ensures cursor.next == (p.pending + [end])[0]
  {
    var n := |p.passed|;
    assert list.elems[n] == cursor && list.elems[n + 1] == (p.pending + [end])[0];
    assert list.Linked(n + 1);
  }

  lemma FirstPending(pending: seq<Node>, more: seq<Node>)
    requires pending != []
    ensures pending + more == [pending[0]] + (pending[1..] + more)
  {
  }

  /** Moves the cursor behind the next node. */
  method Advance(list: LinkedList, cursor: Node, end: Node, ghost p: Parts) returns (pos: Node)
    requires list.Valid() && cursor in list.nodes && p.pending != []
    requires list.elems == Marked(p, cursor, end)
    modifies list`elems, list.nodes
    ensures list.Valid() && pos == p.pending[0]
    ensures list.elems == Marked(Parts(p.passed + [pos], p.pending[1..], p.added), cursor, end)
  {
    ghost var n := |p.passed|;
    NextIsPending(list, cursor, end, p);
    pos := cursor.next;
    CursorOut(p, cursor, end);
    list.Remove(cursor, n);
    ghost var rest := p.pending[1..] + ([end] + p.added);
    FirstPending(p.pending, [end] + p.added);
    CursorIn(p.passed, pos, cursor, rest);
    list.Insert(pos, cursor, n + 1);
  }

  method TakeMarkers(list: LinkedList, cursor: Node, end: Node, ghost p: Parts)
    requires list.Valid() && cursor in list.nodes && end in list.nodes && p.pending == []
    requires list.elems == Marked(p, cursor, end)
    modifies list`elems, list.nodes
    ensures list.Valid() && list.elems == Plain(p)
  {
    ghost var n := |p.passed|;
    CursorOut(p, cursor, end);
    list.Remove(cursor, n);
    EndOut(p, end);
    list.Remove(end, n);
  }

  lemma EndOut(p: Parts, end: Node)
    requires p.pending == []
    ensures var m, n := p.passed + (p.pending + ([end] + p.added)), |p.passed|;
            m[n] == end && m[..n] + m[n + 1..] == Plain(p)
  {
    assert p.pending + ([end] + p.added) == [end] + p.added && p.pending + p.added == p.added;
  }

  /** The node behind the cursor has been passed. */
  ghost function Passed(p: Parts): (p': Parts)
    requires p.pending != []
    ensures Plain(p') == Plain(p)
  {
    Parts(p.passed + [p.pending[0]], p.pending[1..], p.added)
  }

  /** Passes a node, and notifies it if it is a listener. */
  method Notify(list: LinkedList, cursor: Node, end: Node, answers: Answers, ghost known: set<Node>, ghost p: Parts)
    returns (called: seq<Event>, rest: Answers, ghost p': Parts)
    requires Usable(list, known) && AllKnown(answers, known)
    requires cursor in list.nodes && cursor.marker && end.marker
    requires list.elems == Marked(p, cursor, end) && p.pending != []
    modifies list`elems, list`nodes, list.nodes
    ensures Usable(list, known) && old(list.nodes) <= list.nodes && fresh(list.nodes - old(list.nodes))
    ensures AllKnown(rest, known) && AnswersSize(rest) <= AnswersSize(answers)
    ensures list.elems == Marked(p', cursor, end) && Plain(p') == Edit(Plain(p), called)
    ensures |p'.pending| < |p.pending|
    ensures EmitTrace(Plain(p), p.pending, answers) == called + EmitTrace(Plain(p'), p'.pending, rest)
    decreases AnswersSize(answers), 0
  {
    var pos := Advance(list, cursor, end, p);
    p' := Passed(p);
    called, rest := [], answers;
    if !pos.marker {
      rest := Rest(answers);
      if answers.Then? {
        HandlerOnParts(p', cursor, end, answers.first);
        called := RunScript(list, answers.first, known);
      }
      KeepShrinks(p'.pending, called);
      HandledParts(p, answers, called);
      p' := EditParts(Passed(p), called);
      called := [Called(pos)] + called;
    }
  }

  lemma HandledParts(p: Parts, answers: Answers, t: seq<Event>)
    requires p.pending != [] && !p.pending[0].marker
    requires t == if answers.Then? then ScriptTrace(Plain(p), answers.first) else []
    ensures var p' := EditParts(Passed(p), t);
            && Plain(p') == Edit(Plain(p), [Called(p.pending[0])] + t)
            && EmitTrace(Plain(p), p.pending, answers)
               == [Called(p.pending[0])] + t + EmitTrace(Plain(p'), p'.pending, Rest(answers))
  {
    var q := Passed(p);
    EditOfTwo(q.passed, q.pending + q.added, t);
    EditOfTwo(q.pending, q.added, t);
    assert ([Called(p.pending[0])] + t)[1..] == t;
  }

  /** An emission that is going on: what has happened, and what will. */
  ghost predicate Emitting(start: seq<Node>, answers: Answers, p: Parts, rest: Answers, events: seq<Event>) {
    && Plain(p) == Edit(start, events)
    && events + EmitTrace(Plain(p), p.pending, rest) == EmitTrace(start, start, answers)
  }

  lemma EmittingOneMore(start: seq<Node>, answers: Answers, p: Parts, rest: Answers, events: seq<Event>,
                        p': Parts, rest': Answers, called: seq<Event>)
    requires Emitting(start, answers, p, rest, events) && Plain(p') == Edit(Plain(p), called)
    requires EmitTrace(Plain(p), p.pending, rest) == called + EmitTrace(Plain(p'), p'.pending, rest')
    ensures Emitting(start, answers, p', rest', events + called)
  {
    EditConcat(start, events, called);
    Associative(events, called, EmitTrace(Plain(p'), p'.pending, rest'));
  }

  lemma Associative<T>(a: seq<T>, b: seq<T>, c: seq<T>)
    ensures (a + b) + c == a + (b + c)
  {
  }

  /** Emits the signal: what happens is what an emission means, and no marker stays. */
  method EmitMutable(list: LinkedList, answers: Answers, ghost known: set<Node>) returns (events: seq<Event>)
    requires Usable(list, known) && AllKnown(answers, known)
    modifies list`elems, list`nodes, list.nodes
    ensures Usable(list, known) && old(list.nodes) <= list.nodes && fresh(list.nodes - old(list.nodes))
    ensures events == EmitTrace(old(list.elems), old(list.elems), answers)
    ensures list.elems == Edit(old(list.elems), events)
    decreases AnswersSize(answers), 1
  {
    ghost var start := list.elems;
    var cursor, end := PutMarkers(list);
    ghost var p := Parts([], start, []);
    assert Plain(p) == start;
    var rest := answers;
    events := [];
    NextIsPending(list, cursor, end, p);
    while cursor.next != end
      invariant Usable(list, known) && AllKnown(rest, known) && AnswersSize(rest) <= AnswersSize(answers)
      invariant cursor in list.nodes && end in list.nodes
      invariant old(list.nodes) <= list.nodes && fresh(list.nodes - old(list.nodes))
      invariant list.elems == Marked(p, cursor, end) && Emitting(start, answers, p, rest, events)
      invariant cursor.next == (p.pending + [end])[0]
      decreases |p.pending|
    {
      var called, rest', p' := Notify(list, cursor, end, rest, known, p);
      EmittingOneMore(start, answers, p, rest, events, p', rest', called);
      events, rest, p := events + called, rest', p';
      NextIsPending(list, cursor, end, p);
    }
    EndNotPending(list, cursor, end, p);
    TakeMarkers(list, cursor, end, p);
  }

  /** The end marker is not among those to come. */
  lemma EndNotPending(list: LinkedList, cursor: Node, end: Node, p: Parts)
    requires list.Valid() && list.elems == Marked(p, cursor, end)
    ensures end !in p.pending
  {
    var n := |p.passed| + 1;
    assert forall k | 0 <= k < |p.pending| :: list.elems[n + k] == p.pending[k];
    assert list.elems[n + |p.pending|] == end;
  }
}
