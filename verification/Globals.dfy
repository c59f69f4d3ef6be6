/** Globals and the registries they are announced to: what each registry is told, and
    when a global may be taken away. */
module Globals {
  import opened Options

  /** What a registry is told about a name. */
  datatype Sent = Announced(name: nat) | Withdrawn(name: nat)

  /** `offers` are the registries that know of it and have not acknowledged its removal.
      The history keeps how often the withdrawn callback has run, whether there has been
      one ever since the global was unpublished, and whether there was one at the moment
      when it was unpublished and its last offer was gone. */
  datatype Global = Global(unpublished: bool, callback: bool, offers: seq<nat>,
                           fired: nat, listening: bool, heard: bool)

  /** `offers` are the names it has been told, `sent` all it has been told. A dying
      registry is still in the list of the display while its offers are done with. */
  datatype Registry = Registry(offers: seq<nat>, sent: seq<Sent>, dying: bool)

  datatype State = State(globals: map<nat, Global>, globalList: seq<nat>,
                         registries: map<nat, Registry>, registryList: seq<nat>, nextName: nat)

  const UINT32_MAX := 0xffff_ffff

  /** Which registry may see which global: always the same decision. */
  type Filter = (nat, nat) -> bool

  function Without(s: seq<nat>, x: nat): seq<nat> {
    if s == [] then [] else if s[0] == x then s[1..] else [s[0]] + Without(s[1..], x)
  }

  // ---------- Single offers ----------

  predicate Live(s: State, r: nat, name: nat) {
    r in s.registries && name in s.globals
  }

  function Publish(s: State, r: nat, name: nat): State
    requires Live(s, r, name)
  {
    var g, reg := s.globals[name], s.registries[r];
    s.(globals := s.globals[name := g.(offers := [r] + g.offers)],
       registries := s.registries[r := reg.(offers := [name] + reg.offers, sent := reg.sent + [Announced(name)])])
  }

  function OfferDestroy(s: State, r: nat, name: nat): State
    requires Live(s, r, name)
  {
    var g, reg := s.globals[name], s.registries[r];
    var rest := Without(g.offers, r);
    var last := g.unpublished && g.offers != [] && rest == [];
    s.(globals := s.globals[name := g.(offers := rest, heard := if last then g.callback else g.heard)],
       registries := s.registries[r := reg.(offers := Without(reg.offers, name))])
  }

  /** Runs the callback if no one is left to acknowledge. */
  function Fire(s: State, name: nat): State
    requires name in s.globals
  {
    var g := s.globals[name];
    if g.unpublished && g.callback && g.offers == []
    then s.(globals := s.globals[name := g.(fired := g.fired + 1)])
    else s
  }

  function OfferDone(s: State, r: nat, name: nat): State
    requires Live(s, r, name)
  {
    Fire(OfferDestroy(s, r, name), name)
  }

  /** Tells every registry that knows of it; those that come later are not told. */
  function Unpublish(s: State, name: nat): State
    requires name in s.globals
  {
    var g := s.globals[name];
    s.(globals := s.globals[name := g.(unpublished := true, listening := g.callback,
                                       heard := if g.offers == [] then g.callback else g.heard)],
       registries := map r | r in s.registries ::
         if r in g.offers then s.registries[r].(sent := s.registries[r].sent + [Withdrawn(name)]) else s.registries[r])
  }

  // ---------- Operations ----------

  function PublishAll(s: State, vis: Filter, name: nat, rs: seq<nat>): State
    requires name in s.globals && forall r <- rs :: r in s.registries
    decreases |rs|
  {
    if rs == [] then s
    else PublishAll(if vis(rs[0], name) then Publish(s, rs[0], name) else s, vis, name, rs[1..])
  }

  /** The version must be one of the interface's, and there must be a name. */
  predicate CanCreate(s: State, version: int, max: int) {
    1 <= version <= max && s.nextName < UINT32_MAX
  }

  function Fresh(s: State): State {
    s.(globals := s.globals[s.nextName := Global(false, false, [], 0, true, false)],
       globalList := s.globalList + [s.nextName], nextName := s.nextName + 1)
  }

  function CreateGlobal(s: State, vis: Filter, version: int, max: int): State
    requires forall r <- s.registryList :: r in s.registries
  {
    if CanCreate(s, version, max) then PublishAll(Fresh(s), vis, s.nextName, s.registryList) else s
  }

  function AnnounceAll(s: State, vis: Filter, r: nat, names: seq<nat>): State
    requires r in s.registries && forall name <- names :: name in s.globals
    decreases |names|
  {
    if names == [] then s
    else
      AnnounceAll(if vis(r, names[0]) && !s.globals[names[0]].unpublished then Publish(s, r, names[0]) else s,
                  vis, r, names[1..])
  }

  function WithRegistry(s: State, r: nat): State {
    s.(registries := s.registries[r := Registry([], [], false)], registryList := [r] + s.registryList)
  }

  function GetRegistry(s: State, vis: Filter, r: nat): State
    requires forall name <- s.globalList :: name in s.globals
  {
    AnnounceAll(WithRegistry(s, r), vis, r, s.globalList)
  }

  function RemoveGlobal(s: State, name: nat): State
    requires name in s.globals
  {
    Fire(Unpublish(s, name), name)
  }

  function SetCallback(s: State, name: nat, callback: bool): State
    requires name in s.globals
  {
    var g := s.globals[name];
    s.(globals := s.globals[name := g.(callback := callback, listening := g.listening && (callback || !g.unpublished))])
  }

  datatype Error = NotAnnounced | NotRemoved

  function Acknowledge(s: State, r: nat, name: nat): (State, Option<Error>)
    requires r in s.registries
  {
    if name !in s.registries[r].offers || name !in s.globals then (s, Some(NotAnnounced))
    else if !s.globals[name].unpublished then (s, Some(NotRemoved))
    else (OfferDone(s, r, name), None)
  }

  lemma {:induction false} WithoutShrinks(s: seq<nat>, x: nat)
    ensures |Without(s, x)| == |s| - if x in s then 1 else 0
    decreases |s|
  {
    if s != [] && s[0] != x {
      WithoutShrinks(s[1..], x);
    }
  }

  /** The resource of a registry is being destroyed. */
  function BeginEnd(s: State, r: nat): State
    requires r in s.registries
  {
    s.(registries := s.registries[r := s.registries[r].(dying := true)])
  }

  /** One offer of a dying registry is done with. A callback that runs now may do
      anything before the next one is. */
  function EndOffer(s: State, r: nat): State
    requires r in s.registries && s.registries[r].offers != [] && s.registries[r].offers[0] in s.globals
  {
    OfferDone(s, r, s.registries[r].offers[0])
  }

  function EndRegistry(s: State, r: nat): State
    requires r in s.registries
  {
    s.(registries := s.registries - {r}, registryList := Without(s.registryList, r))
  }

  /** All offers of a global that goes away are dropped. */
  function Drop(s: State, name: nat): State
    requires name in s.globals && forall r <- s.globals[name].offers :: r in s.registries
    decreases |s.globals[name].offers|
  {
    var offers := s.globals[name].offers;
    if offers == [] then
      s.(globals := s.globals - {name})
    else
      Drop(OfferDestroy(s, offers[0], name), name)
  }

  function DestroyGlobal(s: State, name: nat): State
    requires name in s.globals && forall r <- s.globals[name].offers :: r in s.registries
  {
    var s' := if s.globals[name].unpublished then s else Unpublish(s, name);
    Drop(s'.(globalList := Without(s'.globalList, name)), name)
  }

  // ---------- The invariant ----------

  ghost predicate Distinct<T>(s: seq<T>) {
    forall i, j | 0 <= i < j < |s| :: s[i] != s[j]
  }

  /** A registry is told of a name once, and of its removal once, later. */
  ghost predicate Orderly(sent: seq<Sent>) {
    && Distinct(sent)
    && forall j | 0 <= j < |sent| && sent[j].Withdrawn? :: Announced(sent[j].name) in sent[..j]
  }

  ghost predicate RegistryOk(s: State, r: nat)
    requires r in s.registries
  {
    var reg := s.registries[r];
    && Distinct(reg.offers) && Orderly(reg.sent)
    && (forall name <- reg.offers ::
          && name in s.globals && r in s.globals[name].offers
          && Announced(name) in reg.sent && (Withdrawn(name) in reg.sent <==> s.globals[name].unpublished))
    && (forall e <- reg.sent :: e.name < s.nextName)
  }

  ghost predicate GlobalOk(s: State, name: nat)
    requires name in s.globals
  {
    && name < s.nextName && Distinct(s.globals[name].offers)
    && (forall r <- s.globals[name].offers :: r in s.registries && name in s.registries[r].offers)
  }

  /** Each offer is in the lists of its global and of its registry. */
  ghost predicate Linked(s: State) {
    && (forall r {:trigger RegistryOk(s, r)} | r in s.registries :: RegistryOk(s, r))
    && (forall name {:trigger GlobalOk(s, name)} | name in s.globals :: GlobalOk(s, name))
  }

  /** Every name announced is still on offer or has been withdrawn, but for a dying registry. */
  ghost predicate Settled(reg: Registry) {
    reg.dying || forall e <- reg.sent | e.Announced? :: e.name in reg.offers || Withdrawn(e.name) in reg.sent
  }

  /** Nobody may use it any more who does not know that it is removed. */
  predicate Unknown(g: Global) {
    g.unpublished && g.offers == []
  }

  /** The callback has run once if it was there when the global became unknown, and
      otherwise not at all. */
  ghost predicate FiredOk(g: Global) {
    && g.fired == (if Unknown(g) && g.heard then 1 else 0)
    && (g.unpublished && g.listening ==> g.callback && (Unknown(g) ==> g.heard))
  }

  ghost predicate Listed(list: seq<nat>, keys: set<nat>) {
    Distinct(list) && forall x :: x in list <==> x in keys
  }

  ghost predicate Invariant(s: State) {
    && Linked(s)
    && Listed(s.globalList, s.globals.Keys) && Listed(s.registryList, s.registries.Keys)
    && (forall r {:trigger Settled(s.registries[r])} | r in s.registries :: Settled(s.registries[r]))
    && (forall name {:trigger FiredOk(s.globals[name])} | name in s.globals :: FiredOk(s.globals[name]))
  }

  // ---------- Single offers keep it ----------

  lemma OrderlyAppend(sent: seq<Sent>, e: Sent)
    requires Orderly(sent) && e !in sent && (e.Withdrawn? ==> Announced(e.name) in sent)
    ensures Orderly(sent + [e])
  {
    forall j | 0 <= j < |sent + [e]| && (sent + [e])[j].Withdrawn?
      ensures Announced((sent + [e])[j].name) in (sent + [e])[..j]
    {
      assert (sent + [e])[..j] == sent[..j];
    }
  }

  lemma PublishKeeps(s: State, r: nat, name: nat)
    requires Linked(s) && Live(s, r, name) && !s.globals[name].unpublished
    requires Announced(name) !in s.registries[r].sent && Withdrawn(name) !in s.registries[r].sent
    ensures Linked(Publish(s, r, name))
    ensures Settled(s.registries[r]) ==> Settled(Publish(s, r, name).registries[r])
  {
    var s' := Publish(s, r, name);
    assert RegistryOk(s, r) && GlobalOk(s, name);
    OrderlyAppend(s.registries[r].sent, Announced(name));
    forall x <- s'.registries
      ensures RegistryOk(s', x)
    {
      assert RegistryOk(s, x);
    }
    forall x <- s'.globals
      ensures GlobalOk(s', x)
    {
      assert GlobalOk(s, x);
    }
  }

  lemma {:induction false} WithoutMembers(s: seq<nat>, x: nat)
    requires Distinct(s)
    ensures Distinct(Without(s, x))
    ensures forall y :: y in Without(s, x) <==> y in s && y != x
    decreases |s|
  {
    if s != [] && s[0] != x {
      WithoutMembers(s[1..], x);
      forall y
        ensures y in Without(s, x) <==> y in s && y != x
      {
        assert y in s <==> y == s[0] || y in s[1..];
      }
      assert s[0] !in s[1..];
    } else if s != [] {
      assert forall y :: y in s <==> y == s[0] || y in s[1..];
    }
  }

  lemma OfferDestroyKeeps(s: State, r: nat, name: nat)
    requires Linked(s) && Live(s, r, name)
    ensures Linked(OfferDestroy(s, r, name))
    ensures s.globals[name].unpublished && name in s.registries[r].offers && Settled(s.registries[r]) ==>
      Settled(OfferDestroy(s, r, name).registries[r])
  {
    var s' := OfferDestroy(s, r, name);
    assert RegistryOk(s, r) && GlobalOk(s, name);
    WithoutMembers(s.registries[r].offers, name);
    WithoutMembers(s.globals[name].offers, r);
    forall x <- s'.registries
      ensures RegistryOk(s', x)
    {
      assert RegistryOk(s, x);
    }
    forall x <- s'.globals
      ensures GlobalOk(s', x)
    {
      assert GlobalOk(s, x);
    }
  }

  lemma UnpublishKeeps(s: State, name: nat)
    requires Linked(s) && name in s.globals && !s.globals[name].unpublished
    ensures Linked(Unpublish(s, name))
    ensures forall r <- s.registries | Settled(s.registries[r]) :: Settled(Unpublish(s, name).registries[r])
  {
    var s' := Unpublish(s, name);
    assert GlobalOk(s, name);
    forall x <- s'.registries
      ensures RegistryOk(s', x)
    {
      assert RegistryOk(s, x);
      if x in s.globals[name].offers {
        OrderlyAppend(s.registries[x].sent, Withdrawn(name));
      }
    }
    forall x <- s'.globals
      ensures GlobalOk(s', x)
    {
      assert GlobalOk(s, x);
    }
  }

  lemma FireKeeps(s: State, name: nat)
    requires Linked(s) && name in s.globals
    ensures Linked(Fire(s, name))
  {
    var s' := Fire(s, name);
    forall x <- s'.registries
      ensures RegistryOk(s', x)
    {
      assert RegistryOk(s, x);
    }
    forall x <- s'.globals
      ensures GlobalOk(s', x)
    {
      assert GlobalOk(s, x);
    }
  }

  // ---------- Operations keep it ----------

  /** Every registry has on offer exactly the published globals it may see. */
  ghost predicate Told(s: State, vis: Filter) {
    forall r, name | Due(s, r, name) :: name in s.registries[r].offers <==> vis(r, name)
  }

  predicate Due(s: State, r: nat, name: nat) {
    Live(s, r, name) && !s.registries[r].dying && !s.globals[name].unpublished
  }

  ghost predicate Good(s: State, vis: Filter) {
    Invariant(s) && Told(s, vis)
  }

  ghost predicate Untold(s: State, r: nat, name: nat)
    requires r in s.registries
  {
    Announced(name) !in s.registries[r].sent && Withdrawn(name) !in s.registries[r].sent
  }

  /** What publishing to some registries does. */
  ghost predicate PublishedTo(s: State, s': State, vis: Filter, name: nat, rs: seq<nat>)
    requires name in s.globals
  {
    && s'.globals.Keys == s.globals.Keys && s'.registries.Keys == s.registries.Keys
    && s' == s.(globals := s'.globals, registries := s'.registries)
    && (forall x <- s.globals :: s'.globals[x] ==
          if x == name then s.globals[x].(offers := s'.globals[x].offers) else s.globals[x])
    && (forall r <- s.registries :: s'.registries[r] ==
          if r in rs && vis(r, name)
          then s.registries[r].(offers := [name] + s.registries[r].offers,
                                sent := s.registries[r].sent + [Announced(name)])
          else s.registries[r])
  }

  lemma PublishedToOneMore(s: State, s1: State, s': State, vis: Filter, name: nat, r: nat, rs: seq<nat>)
    requires Live(s, r, name) && r !in rs && s1 == if vis(r, name) then Publish(s, r, name) else s
    requires PublishedTo(s1, s', vis, name, rs)
    ensures PublishedTo(s, s', vis, name, [r] + rs)
  {
  }

  lemma {:induction false} PublishAllKeeps(s: State, vis: Filter, name: nat, rs: seq<nat>)
    requires Linked(s) && name in s.globals && !s.globals[name].unpublished
    requires Distinct(rs) && forall r <- rs :: r in s.registries && Untold(s, r, name)
    ensures Linked(PublishAll(s, vis, name, rs)) && PublishedTo(s, PublishAll(s, vis, name, rs), vis, name, rs)
    decreases |rs|
  {
    if rs != [] {
      var s1 := if vis(rs[0], name) then Publish(s, rs[0], name) else s;
      if vis(rs[0], name) {
        PublishKeeps(s, rs[0], name);
      }
      assert rs[0] !in rs[1..] && [rs[0]] + rs[1..] == rs;
      PublishAllKeeps(s1, vis, name, rs[1..]);
      PublishedToOneMore(s, s1, PublishAll(s, vis, name, rs), vis, name, rs[0], rs[1..]);
    }
  }

  lemma CreateKeeps(s: State, vis: Filter, version: int, max: int)
    requires Good(s, vis)
    ensures Good(CreateGlobal(s, vis, version, max), vis)
    ensures CanCreate(s, version, max) ==>
      s.nextName !in s.globals
      && PublishedTo(Fresh(s), CreateGlobal(s, vis, version, max), vis, s.nextName, s.registryList)
  {
    if CanCreate(s, version, max) {
      FreshGlobal(s);
      PublishAllKeeps(Fresh(s), vis, s.nextName, s.registryList);
      CreatedIsGood(s, CreateGlobal(s, vis, version, max), vis);
    }
  }

  lemma FreshGlobal(s: State)
    requires Invariant(s)
    ensures Linked(Fresh(s)) && s.nextName !in s.globals && Listed(Fresh(s).globalList, Fresh(s).globals.Keys)
    ensures forall r <- s.registries :: Untold(Fresh(s), r, s.nextName)
  {
    var name, s1 := s.nextName, Fresh(s);
    assert forall x <- s.globals :: GlobalOk(s, x) ==> x < name;
    forall r <- s1.registries
      ensures RegistryOk(s1, r) && Untold(s1, r, name)
    {
      assert RegistryOk(s, r);
    }
    forall x <- s1.globals
      ensures GlobalOk(s1, x)
    {
      assert x != name ==> GlobalOk(s, x);
    }
  }

  lemma CreatedIsGood(s: State, s': State, vis: Filter)
    requires Good(s, vis) && s.nextName !in s.globals
    requires Listed(Fresh(s).globalList, Fresh(s).globals.Keys)
    requires Linked(s') && PublishedTo(Fresh(s), s', vis, s.nextName, s.registryList)
    ensures Good(s', vis)
  {
    var name := s.nextName;
    forall r <- s'.registries
      ensures Settled(s'.registries[r])
      ensures forall x | Due(s', r, x) :: x in s'.registries[r].offers <==> vis(r, x)
    {
      assert Settled(s.registries[r]) && RegistryOk(s, r) && r in s.registryList;
      forall x | Due(s', r, x)
        ensures x in s'.registries[r].offers <==> vis(r, x)
      {
        assert x != name ==> Due(s, r, x);
      }
    }
    forall x <- s'.globals
      ensures FiredOk(s'.globals[x])
    {
      assert x != name ==> FiredOk(s.globals[x]);
    }
  }

  /** What announcing some globals to a registry does. */
  ghost predicate AnnouncedTo(s: State, s': State, vis: Filter, r: nat, names: seq<nat>)
    requires r in s.registries && forall x <- names :: x in s.globals
  {
    && s'.globals.Keys == s.globals.Keys && s'.registries.Keys == s.registries.Keys
    && s' == s.(globals := s'.globals, registries := s'.registries)
    && (forall x <- s.registries | x != r :: s'.registries[x] == s.registries[x])
    && (forall x <- s.globals :: s'.globals[x] ==
          if x in names && vis(r, x) && !s.globals[x].unpublished
          then s.globals[x].(offers := [r] + s.globals[x].offers)
          else s.globals[x])
    && (forall x <- s.globals ::
          x in s'.registries[r].offers <==>
          x in s.registries[r].offers || (x in names && vis(r, x) && !s.globals[x].unpublished))
  }

  lemma AnnouncedToOneMore(s: State, s1: State, s': State, vis: Filter, r: nat, name: nat, names: seq<nat>)
    requires Live(s, r, name) && name !in names && forall x <- names :: x in s.globals
    requires s1 == if vis(r, name) && !s.globals[name].unpublished then Publish(s, r, name) else s
    requires AnnouncedTo(s1, s', vis, r, names)
    ensures AnnouncedTo(s, s', vis, r, [name] + names)
  {
  }

  lemma {:induction false} AnnounceAllKeeps(s: State, vis: Filter, r: nat, names: seq<nat>)
    requires Linked(s) && r in s.registries && Settled(s.registries[r])
    requires Distinct(names) && forall name <- names :: name in s.globals && Untold(s, r, name)
    ensures var s' := AnnounceAll(s, vis, r, names);
            Linked(s') && AnnouncedTo(s, s', vis, r, names) && Settled(s'.registries[r])
    decreases |names|
  {
    if names != [] {
      var name := names[0];
      var tell := vis(r, name) && !s.globals[name].unpublished;
      var s1 := if tell then Publish(s, r, name) else s;
      if tell {
        PublishKeeps(s, r, name);
      }
      assert name !in names[1..] && [name] + names[1..] == names;
      forall x <- names[1..]
        ensures x in names && x in s1.globals && Untold(s1, r, x)
      {
        assert x in names && x != name && Untold(s, r, x);
      }
      AnnounceAllKeeps(s1, vis, r, names[1..]);
      AnnouncedToOneMore(s, s1, AnnounceAll(s, vis, r, names), vis, r, name, names[1..]);
    }
  }

  lemma FreshRegistry(s: State, r: nat)
    requires Linked(s) && r !in s.registries
    ensures Linked(WithRegistry(s, r))
  {
    var s1 := WithRegistry(s, r);
    forall x <- s1.registries
      ensures RegistryOk(s1, x)
    {
      assert x != r ==> RegistryOk(s, x);
    }
    forall x <- s1.globals
      ensures GlobalOk(s1, x)
    {
      assert GlobalOk(s, x);
    }
  }

  lemma RegisteredIsGood(s: State, s': State, vis: Filter, r: nat)
    requires Good(s, vis) && r !in s.registries && Linked(s')
    requires (forall x <- s.globalList :: x in s.globals) && AnnouncedTo(WithRegistry(s, r), s', vis, r, s.globalList)
    requires Settled(s'.registries[r])
    ensures Good(s', vis)
  {
    forall x <- s'.registries
      ensures Settled(s'.registries[x])
    {
      assert x != r ==> Settled(s.registries[x]);
    }
    forall x, y | Due(s', x, y)
      ensures y in s'.registries[x].offers <==> vis(x, y)
    {
      assert x != r ==> Due(s, x, y);
    }
    forall x <- s'.globals
      ensures FiredOk(s'.globals[x])
    {
      assert FiredOk(s.globals[x]);
    }
  }

  lemma GetRegistryKeeps(s: State, vis: Filter, r: nat)
    requires Good(s, vis) && r !in s.registries
    ensures Good(GetRegistry(s, vis, r), vis)
    ensures AnnouncedTo(WithRegistry(s, r), GetRegistry(s, vis, r), vis, r, s.globalList)
  {
    FreshRegistry(s, r);
    AnnounceAllKeeps(WithRegistry(s, r), vis, r, s.globalList);
    RegisteredIsGood(s, GetRegistry(s, vis, r), vis, r);
  }

  lemma RemoveKeeps(s: State, vis: Filter, name: nat)
    requires Good(s, vis) && name in s.globals && !s.globals[name].unpublished
    ensures Good(RemoveGlobal(s, name), vis)
  {
    UnpublishKeeps(s, name);
    FireKeeps(Unpublish(s, name), name);
    var s' := RemoveGlobal(s, name);
    forall x <- s'.globals
      ensures FiredOk(s'.globals[x])
    {
      assert FiredOk(s.globals[x]);
    }
  }

  lemma SetCallbackKeeps(s: State, vis: Filter, name: nat, callback: bool)
    requires Good(s, vis) && name in s.globals
    ensures Good(SetCallback(s, name, callback), vis)
  {
    var s' := SetCallback(s, name, callback);
    forall x <- s'.registries
      ensures RegistryOk(s', x)
    {
      assert RegistryOk(s, x);
    }
    forall x <- s'.globals
      ensures GlobalOk(s', x) && FiredOk(s'.globals[x])
    {
      assert GlobalOk(s, x) && FiredOk(s.globals[x]);
    }
  }

  /** An offer that is done with: the callback runs exactly when it was the last. */
  lemma OfferDoneFires(s: State, r: nat, name: nat)
    requires Linked(s) && Live(s, r, name) && name in s.registries[r].offers && FiredOk(s.globals[name])
    ensures var s' := OfferDone(s, r, name);
            && Linked(s') && FiredOk(s'.globals[name])
            && s'.globals.Keys == s.globals.Keys && s'.registries.Keys == s.registries.Keys
            && s' == s.(globals := s'.globals, registries := s'.registries)
            && (forall x <- s.globals | x != name :: s'.globals[x] == s.globals[x])
            && (forall x <- s.registries | x != r :: s'.registries[x] == s.registries[x])
            && s'.registries[r] == s.registries[r].(offers := Without(s.registries[r].offers, name))
            && s'.globals[name].unpublished == s.globals[name].unpublished
  {
    assert RegistryOk(s, r);
    OfferDestroyKeeps(s, r, name);
    FireKeeps(OfferDestroy(s, r, name), name);
  }

  lemma AcknowledgeKeeps(s: State, vis: Filter, r: nat, name: nat)
    requires Good(s, vis) && r in s.registries
    ensures Good(Acknowledge(s, r, name).0, vis)
  {
    var (s', refused) := Acknowledge(s, r, name);
    if refused == None {
      assert RegistryOk(s, r) && FiredOk(s.globals[name]);
      OfferDoneFires(s, r, name);
      OfferDestroyKeeps(s, r, name);
      WithoutMembers(s.registries[r].offers, name);
      forall x <- s'.globals
        ensures FiredOk(s'.globals[x])
      {
        assert x != name ==> FiredOk(s.globals[x]);
      }
      forall x <- s'.registries
        ensures Settled(s'.registries[x])
      {
        assert Settled(s.registries[x]);
      }
    }
  }

  lemma BeginEndKeeps(s: State, vis: Filter, r: nat)
    requires Good(s, vis) && r in s.registries
    ensures Good(BeginEnd(s, r), vis)
  {
    var s' := BeginEnd(s, r);
    forall x <- s'.registries
      ensures RegistryOk(s', x) && Settled(s'.registries[x])
    {
      assert RegistryOk(s, x) && Settled(s.registries[x]);
    }
    forall x <- s'.globals
      ensures GlobalOk(s', x) && FiredOk(s'.globals[x])
    {
      assert GlobalOk(s, x) && FiredOk(s.globals[x]);
    }
    assert forall x, y :: Due(s', x, y) ==> Due(s, x, y);
  }

  lemma EndOfferKeeps(s: State, vis: Filter, r: nat)
    requires Good(s, vis) && r in s.registries && s.registries[r].dying && s.registries[r].offers != []
    ensures s.registries[r].offers[0] in s.globals
    ensures Good(EndOffer(s, r), vis)
  {
    var name := s.registries[r].offers[0];
    assert RegistryOk(s, r);
    assert FiredOk(s.globals[name]);
    OfferDoneFires(s, r, name);
    var s' := EndOffer(s, r);
    forall x <- s'.globals
      ensures FiredOk(s'.globals[x])
    {
      assert x != name ==> FiredOk(s.globals[x]);
    }
    forall x <- s'.registries
      ensures Settled(s'.registries[x])
    {
      assert Settled(s.registries[x]);
    }
    assert forall x, y :: Due(s', x, y) ==> Due(s, x, y);
  }

  lemma EndRegistryKeeps(s: State, vis: Filter, r: nat)
    requires Good(s, vis) && r in s.registries && s.registries[r].offers == []
    ensures Good(EndRegistry(s, r), vis)
  {
    var s' := EndRegistry(s, r);
    WithoutMembers(s.registryList, r);
    forall x <- s'.registries
      ensures RegistryOk(s', x) && Settled(s'.registries[x])
    {
      assert RegistryOk(s, x) && Settled(s.registries[x]);
    }
    forall x <- s'.globals
      ensures GlobalOk(s', x) && FiredOk(s'.globals[x])
    {
      assert GlobalOk(s, x) && FiredOk(s.globals[x]);
    }
    assert forall x, y :: Due(s', x, y) ==> Due(s, x, y);
  }

  /** Without one global: its offers are gone from every registry. */
  ghost predicate DroppedFrom(s: State, s': State, name: nat)
    requires name in s.globals
  {
    && s'.globals == s.globals - {name} && s'.registries.Keys == s.registries.Keys
    && s'.globalList == s.globalList && s'.registryList == s.registryList && s'.nextName == s.nextName
    && (forall r <- s.registries ::
          && s'.registries[r].sent == s.registries[r].sent && s'.registries[r].dying == s.registries[r].dying
          && (forall x :: x in s'.registries[r].offers <==> x in s.registries[r].offers && x != name))
  }

  lemma UndeclareKeeps(s: State, name: nat)
    requires Linked(s) && name in s.globals && s.globals[name].offers == []
    ensures Linked(s.(globals := s.globals - {name})) && DroppedFrom(s, s.(globals := s.globals - {name}), name)
  {
    var s' := s.(globals := s.globals - {name});
    forall x <- s'.registries
      ensures RegistryOk(s', x) && name !in s.registries[x].offers
    {
      assert RegistryOk(s, x);
    }
    forall x <- s'.globals
      ensures GlobalOk(s', x)
    {
      assert GlobalOk(s, x);
    }
  }

  lemma DropOne(s: State, r: nat, name: nat)
    requires Linked(s) && Live(s, r, name)
    ensures var s1 := OfferDestroy(s, r, name);
            && s1.globals - {name} == s.globals - {name}
            && forall x <- s.registries ::
                 && s1.registries[x].sent == s.registries[x].sent && s1.registries[x].dying == s.registries[x].dying
                 && forall y :: y in s1.registries[x].offers <==> y in s.registries[x].offers && (x != r || y != name)
  {
    assert RegistryOk(s, r);
    WithoutMembers(s.registries[r].offers, name);
  }

  lemma {:induction false} DropKeeps(s: State, name: nat)
    requires Linked(s) && name in s.globals
    ensures forall r <- s.globals[name].offers :: r in s.registries
    ensures Linked(Drop(s, name)) && DroppedFrom(s, Drop(s, name), name)
    decreases |s.globals[name].offers|
  {
    assert GlobalOk(s, name);
    var offers := s.globals[name].offers;
    if offers == [] {
      UndeclareKeeps(s, name);
    } else {
      OfferDestroyKeeps(s, offers[0], name);
      WithoutShrinks(offers, offers[0]);
      DropOne(s, offers[0], name);
      DropKeeps(OfferDestroy(s, offers[0], name), name);
    }
  }

  /** What is told to registries is in order when the global is taken away, too. */
  lemma DestroyGlobalKeeps(s: State, vis: Filter, name: nat)
    requires Good(s, vis) && name in s.globals
    ensures forall r <- s.globals[name].offers :: r in s.registries
    ensures Good(DestroyGlobal(s, name), vis)
  {
    assert GlobalOk(s, name);
    var s1 := if s.globals[name].unpublished then s else Unpublish(s, name);
    if !s.globals[name].unpublished {
      UnpublishKeeps(s, name);
    }
    var s2 := s1.(globalList := Without(s1.globalList, name));
    ListIsNotLinked(s1, s2);
    DropKeeps(s2, name);
    WithoutMembers(s.globalList, name);
    DestroyedIsGood(s, s2, DestroyGlobal(s, name), vis, name);
  }

  /** Nothing else goes with it. */
  lemma DestroyFrame(s: State, name: nat)
    requires Linked(s) && name in s.globals
    ensures forall r <- s.globals[name].offers :: r in s.registries
    ensures DestroyGlobal(s, name).nextName == s.nextName && DestroyGlobal(s, name).globals == s.globals - {name}
    ensures forall r <- s.registries ::
      r in DestroyGlobal(s, name).registries && DestroyGlobal(s, name).registries[r].dying == s.registries[r].dying
  {
    assert GlobalOk(s, name);
    var s1 := if s.globals[name].unpublished then s else Unpublish(s, name);
    if !s.globals[name].unpublished {
      UnpublishKeeps(s, name);
    }
    var s2 := s1.(globalList := Without(s1.globalList, name));
    ListIsNotLinked(s1, s2);
    DropKeeps(s2, name);
  }

  lemma ListIsNotLinked(s: State, s': State)
    requires Linked(s) && s' == s.(globalList := s'.globalList)
    ensures Linked(s')
  {
    forall x <- s'.registries
      ensures RegistryOk(s', x)
    {
      assert RegistryOk(s, x);
    }
    forall x <- s'.globals
      ensures GlobalOk(s', x)
    {
      assert GlobalOk(s, x);
    }
  }

  lemma DestroyedIsGood(s: State, s2: State, s': State, vis: Filter, name: nat)
    requires Good(s, vis) && name in s.globals && Linked(s2) && Linked(s') && name in s2.globals
    requires s2.globals.Keys == s.globals.Keys && forall x <- s.globals | x != name :: s2.globals[x] == s.globals[x]
    requires s2.registries.Keys == s.registries.Keys && s2.registryList == s.registryList
    requires s2.globals[name].unpublished
    requires forall r <- s.registries ::
               s2.registries[r].offers == s.registries[r].offers && Settled(s2.registries[r])
               && s2.registries[r].dying == s.registries[r].dying
    requires s2.globalList == Without(s.globalList, name) && DroppedFrom(s2, s', name)
    ensures Good(s', vis)
  {
    WithoutMembers(s.globalList, name);
    forall x <- s'.globals
      ensures FiredOk(s'.globals[x])
    {
      assert FiredOk(s.globals[x]);
    }
    forall r <- s'.registries
      ensures Settled(s'.registries[r])
    {
      assert Settled(s2.registries[r]) && RegistryOk(s2, r);
    }
    assert forall x, y :: Due(s', x, y) ==> Due(s, x, y);
  }

  // ---------- All runs ----------

  datatype Act =
    | Create(version: int, max: int)
    | NewRegistry(r: nat)
    | Remove(name: nat)
    | SetWithdrawn(name: nat, callback: bool)
    | Ack(r: nat, name: nat)
    | Dying(r: nat)
    | OneOfferDone(r: nat)
    | Gone(r: nat)
    | Destroy(name: nat)

  /** Globals are removed once, and not used after they are destroyed. The end of a
      registry may be interrupted by anything else, after any of its offers. */
  predicate Guard(s: State, act: Act) {
    match act
    case Create(_, _) => true
    case NewRegistry(r) => r !in s.registries
    case Remove(name) => name in s.globals && !s.globals[name].unpublished
    case SetWithdrawn(name, _) => name in s.globals
    case Ack(r, _) => r in s.registries && !s.registries[r].dying
    case Dying(r) => r in s.registries && !s.registries[r].dying
    case OneOfferDone(r) => r in s.registries && s.registries[r].dying && s.registries[r].offers != []
    case Gone(r) => r in s.registries && s.registries[r].dying && s.registries[r].offers == []
    case Destroy(name) => name in s.globals
  }

  ghost function Step(s: State, vis: Filter, act: Act): (s': State)
    requires Good(s, vis) && Guard(s, act)
    ensures Good(s', vis)
  {
    match act
    case Create(version, max) => CreateKeeps(s, vis, version, max); CreateGlobal(s, vis, version, max)
    case NewRegistry(r) => GetRegistryKeeps(s, vis, r); GetRegistry(s, vis, r)
    case Remove(name) => RemoveKeeps(s, vis, name); RemoveGlobal(s, name)
    case SetWithdrawn(name, callback) => SetCallbackKeeps(s, vis, name, callback); SetCallback(s, name, callback)
    case Ack(r, name) => AcknowledgeKeeps(s, vis, r, name); Acknowledge(s, r, name).0
    case Dying(r) => BeginEndKeeps(s, vis, r); BeginEnd(s, r)
    case OneOfferDone(r) => EndOfferKeeps(s, vis, r); EndOffer(s, r)
    case Gone(r) => EndRegistryKeeps(s, vis, r); EndRegistry(s, r)
    case Destroy(name) => DestroyGlobalKeeps(s, vis, name); DestroyGlobal(s, name)
  }

  const START := State(map[], [], map[], [], 1)

  ghost predicate RunAllowed(s: State, vis: Filter, acts: seq<Act>)
    requires Good(s, vis)
    decreases |acts|
  {
    acts != [] ==> Guard(s, acts[0]) && RunAllowed(Step(s, vis, acts[0]), vis, acts[1..])
  }

  ghost function Run(s: State, vis: Filter, acts: seq<Act>): (s': State)
    requires Good(s, vis) && RunAllowed(s, vis, acts)
    ensures Good(s', vis)
    decreases |acts|
  {
    if acts == [] then s else Run(Step(s, vis, acts[0]), vis, acts[1..])
  }

  /** In every run a registry is told of a global at most once, of its removal at most
      once and only after that, and knows exactly the published globals it may see,
      unless it is dying. */
  lemma RegistriesAreTold(vis: Filter, acts: seq<Act>, r: nat)
    requires RunAllowed(START, vis, acts) && r in Run(START, vis, acts).registries
    ensures var s := Run(START, vis, acts);
            && Orderly(s.registries[r].sent)
            && forall name | Due(s, r, name) ::
                 vis(r, name) <==> Announced(name) in s.registries[r].sent && Withdrawn(name) !in s.registries[r].sent
  {
    var s := Run(START, vis, acts);
    assert RegistryOk(s, r) && Settled(s.registries[r]);
    forall name | Due(s, r, name)
      ensures vis(r, name) <==> Announced(name) in s.registries[r].sent && Withdrawn(name) !in s.registries[r].sent
    {
      assert name in s.registries[r].offers <==> vis(r, name);
    }
  }

  /** In every run the callback has run exactly once if the global is removed, nobody is
      left who may not know it, and the callback was set when that came about; otherwise
      it has not run. Set when the global was removed, and not taken away, it was. */
  lemma WithdrawnWhenUnknown(vis: Filter, acts: seq<Act>, name: nat)
    requires RunAllowed(START, vis, acts) && name in Run(START, vis, acts).globals
    ensures var g := Run(START, vis, acts).globals[name];
            && g.fired == (if Unknown(g) && g.heard then 1 else 0)
            && (g.listening ==> (g.fired == 1 <==> Unknown(g)))
  {
    assert FiredOk(Run(START, vis, acts).globals[name]);
  }

  /** A global that is unknown without its callback having run, or is gone. */
  ghost predicate Missed(s: State, name: nat) {
    name < s.nextName && (name in s.globals ==> Unknown(s.globals[name]) && s.globals[name].fired == 0)
  }

  lemma OtherOffer(s: State, r: nat, name: nat, other: nat)
    requires Linked(s) && r in s.registries && other in s.registries[r].offers
    requires name in s.globals && Unknown(s.globals[name])
    ensures other != name
  {
    assert RegistryOk(s, r);
  }

  lemma StepMisses(s: State, vis: Filter, act: Act, name: nat)
    requires Good(s, vis) && Guard(s, act) && Missed(s, name)
    ensures Missed(Step(s, vis, act), name)
  {
    match act
    case Create(version, max) => CreateKeeps(s, vis, version, max);
    case NewRegistry(r) => GetRegistryKeeps(s, vis, r);
    case Ack(r, x) =>
      if name in s.globals && x in s.registries[r].offers {
        OtherOffer(s, r, name, x);
      }
    case OneOfferDone(r) =>
      EndOfferKeeps(s, vis, r);
      if name in s.globals {
        OtherOffer(s, r, name, s.registries[r].offers[0]);
      }
    case Destroy(x) => DestroyFrame(s, x);
    case _ =>
  }

  /** Once a global is unknown without the callback having run, it never runs, whatever is
      set or done later. */
  lemma {:induction false} LateCallbackNeverRuns(s: State, vis: Filter, acts: seq<Act>, name: nat)
    requires Good(s, vis) && RunAllowed(s, vis, acts) && Missed(s, name)
    ensures Missed(Run(s, vis, acts), name)
    decreases |acts|
  {
    if acts != [] {
      StepMisses(s, vis, acts[0], name);
      LateCallbackNeverRuns(Step(s, vis, acts[0]), vis, acts[1..], name);
    }
  }

  /** Setting the callback after the removal is such a case. */
  lemma LateCallback(vis: Filter)
    ensures var acts := [Create(1, 1), Remove(1), SetWithdrawn(1, true)];
            RunAllowed(START, vis, acts) && 1 in Run(START, vis, acts).globals
            && Run(START, vis, acts).globals[1].callback && Missed(Run(START, vis, acts), 1)
  {
    var acts := [Create(1, 1), Remove(1), SetWithdrawn(1, true)];
    var s1 := Step(START, vis, Create(1, 1));
    var s2 := Step(s1, vis, Remove(1));
    var s3 := Step(s2, vis, SetWithdrawn(1, true));
    assert acts[1..] == [Remove(1), SetWithdrawn(1, true)] && acts[1..][1..] == [SetWithdrawn(1, true)];
    assert acts[1..][1..][1..] == [];
    assert RunAllowed(s3, vis, []) && Run(s3, vis, []) == s3;
    assert RunAllowed(s2, vis, acts[1..][1..]) && Run(s2, vis, acts[1..][1..]) == s3;
    assert RunAllowed(s1, vis, acts[1..]) && Run(s1, vis, acts[1..]) == s3;
  }

  ghost predicate Reaches(s: State, vis: Filter, acts: seq<Act>, s': State)
    requires Good(s, vis)
    decreases |acts|
  {
    if acts == [] then s == s'
    else if !Guard(s, acts[0]) then false
    else Reaches(Step(s, vis, acts[0]), vis, acts[1..], s')
  }

  lemma {:induction false} ReachesIsRun(s: State, vis: Filter, acts: seq<Act>, s': State)
    requires Good(s, vis) && Reaches(s, vis, acts, s')
    ensures RunAllowed(s, vis, acts) && Run(s, vis, acts) == s'
    decreases |acts|
  {
    if acts != [] {
      ReachesIsRun(Step(s, vis, acts[0]), vis, acts[1..], s');
    }
  }

  lemma ReachesOne(s: State, vis: Filter, act: Act)
    requires Good(s, vis) && Guard(s, act)
    ensures Reaches(s, vis, [act], Step(s, vis, act))
  {
    assert [act][1..] == [];
  }

  lemma {:induction false} ReachesOneMore(s: State, vis: Filter, acts: seq<Act>, s1: State, act: Act)
    requires Good(s, vis) && Good(s1, vis) && Reaches(s, vis, acts, s1) && Guard(s1, act)
    ensures Reaches(s, vis, acts + [act], Step(s1, vis, act))
    decreases |acts|
  {
    if acts == [] {
      ReachesOne(s, vis, act);
      assert acts + [act] == [act];
    } else {
      ReachesOneMore(Step(s, vis, acts[0]), vis, acts[1..], s1, act);
      FirstAndRest(acts, act);
    }
  }

  lemma FirstAndRest(acts: seq<Act>, act: Act)
    requires acts != []
    ensures (acts + [act])[0] == acts[0] && (acts + [act])[1..] == acts[1..] + [act]
  {
  }

  lemma OfferShrinks(s: State, vis: Filter, r: nat)
    requires Good(s, vis) && Guard(s, OneOfferDone(r))
    ensures r in Step(s, vis, OneOfferDone(r)).registries
    ensures |Step(s, vis, OneOfferDone(r)).registries[r].offers| < |s.registries[r].offers|
  {
    EndOfferKeeps(s, vis, r);
    WithoutShrinks(s.registries[r].offers, s.registries[r].offers[0]);
  }

  /** Nothing but its own end takes a dying registry away. */
  lemma StaysDying(s: State, vis: Filter, act: Act, r: nat)
    requires Good(s, vis) && Guard(s, act) && r in s.registries && s.registries[r].dying && act != Gone(r)
    ensures var s' := Step(s, vis, act); r in s'.registries && s'.registries[r].dying
  {
    match act
    case Create(version, max) => CreateKeeps(s, vis, version, max);
    case NewRegistry(x) => GetRegistryKeeps(s, vis, x);
    case OneOfferDone(x) => EndOfferKeeps(s, vis, x);
    case Destroy(name) => DestroyFrame(s, name);
    case _ =>
  }

  // ---------- The end of a registry ----------

  ghost predicate IsDying(s: State, vis: Filter, r: nat) {
    Good(s, vis) && r in s.registries && s.registries[r].dying
  }

  /** Whether the first offer of a dying registry lets a callback run. */
  ghost predicate Fires(s: State, vis: Filter, r: nat)
    requires IsDying(s, vis, r) && s.registries[r].offers != []
  {
    assert RegistryOk(s, r);
    var g := s.globals[s.registries[r].offers[0]];
    g.unpublished && g.callback && Without(g.offers, r) == []
  }

  /** What a callback does in the meantime, as far as it may: it cannot end this registry. */
  ghost function AfterCallback(s: State, vis: Filter, r: nat, script: seq<Act>): (s': State)
    requires IsDying(s, vis, r)
    ensures IsDying(s', vis, r)
    decreases |script|
  {
    if script == [] then s
    else if script[0] == Gone(r) || !Guard(s, script[0]) then AfterCallback(s, vis, r, script[1..])
    else StaysDying(s, vis, script[0], r); AfterCallback(Step(s, vis, script[0]), vis, r, script[1..])
  }

  /** The offers are done with one by one; each callback that runs does what is next in
      `script`, and the loop goes on with the offers that are left then. */
  ghost function Unbound(s: State, vis: Filter, r: nat, script: seq<seq<Act>>): (s': State)
    requires IsDying(s, vis, r)
    ensures Good(s', vis) && r !in s'.registries
    decreases |script|, |s.registries[r].offers|
  {
    if s.registries[r].offers == [] then Step(s, vis, Gone(r))
    else
      OfferShrinks(s, vis, r);
      StaysDying(s, vis, OneOfferDone(r), r);
      var s1 := Step(s, vis, OneOfferDone(r));
      if Fires(s, vis, r) && script != []
      then Unbound(AfterCallback(s1, vis, r, script[0]), vis, r, script[1..])
      else Unbound(s1, vis, r, script)
  }

  lemma {:induction false} CallbackReaches(start: State, vis: Filter, before: seq<Act>, s: State, r: nat,
                                           script: seq<Act>)
    returns (acts: seq<Act>)
    requires Good(start, vis) && IsDying(s, vis, r) && Reaches(start, vis, before, s)
    ensures Reaches(start, vis, acts, AfterCallback(s, vis, r, script))
    decreases |script|
  {
    if script == [] {
      acts := before;
    } else if script[0] == Gone(r) || !Guard(s, script[0]) {
      acts := CallbackReaches(start, vis, before, s, r, script[1..]);
    } else {
      StaysDying(s, vis, script[0], r);
      ReachesOneMore(start, vis, before, s, script[0]);
      acts := CallbackReaches(start, vis, before + [script[0]], Step(s, vis, script[0]), r, script[1..]);
    }
  }

  lemma {:induction false} UnboundReaches(start: State, vis: Filter, before: seq<Act>, s: State, r: nat,
                                          script: seq<seq<Act>>)
    returns (acts: seq<Act>)
    requires Good(start, vis) && IsDying(s, vis, r) && Reaches(start, vis, before, s)
    ensures Reaches(start, vis, acts, Unbound(s, vis, r, script))
    decreases |script|, |s.registries[r].offers|
  {
    if s.registries[r].offers == [] {
      ReachesOneMore(start, vis, before, s, Gone(r));
      acts := before + [Gone(r)];
    } else {
      OfferShrinks(s, vis, r);
      StaysDying(s, vis, OneOfferDone(r), r);
      ReachesOneMore(start, vis, before, s, OneOfferDone(r));
      var s1, acts1 := Step(s, vis, OneOfferDone(r)), before + [OneOfferDone(r)];
      if Fires(s, vis, r) && script != [] {
        acts1 := CallbackReaches(start, vis, acts1, s1, r, script[0]);
        acts := UnboundReaches(start, vis, acts1, AfterCallback(s1, vis, r, script[0]), r, script[1..]);
      } else {
        acts := UnboundReaches(start, vis, acts1, s1, r, script);
      }
    }
  }

  /** The end of a registry, callbacks and all, is a run: so what holds in every run holds
      after each of its steps. */
  lemma UnbindingIsRun(s: State, vis: Filter, r: nat, script: seq<seq<Act>>) returns (acts: seq<Act>)
    requires Good(s, vis) && Guard(s, Dying(r))
    ensures IsDying(Step(s, vis, Dying(r)), vis, r)
    ensures RunAllowed(s, vis, acts) && Run(s, vis, acts) == Unbound(Step(s, vis, Dying(r)), vis, r, script)
  {
    ReachesOne(s, vis, Dying(r));
    acts := UnboundReaches(s, vis, [Dying(r)], Step(s, vis, Dying(r)), r, script);
    ReachesIsRun(s, vis, acts, Unbound(Step(s, vis, Dying(r)), vis, r, script));
  }

  // ---------- The display ----------

  class Display {
    const vis: Filter
    var globals: map<nat, Global>
    var globalList: seq<nat>
    var registries: map<nat, Registry>
    var registryList: seq<nat>
    var nextName: nat

    ghost function View(): State
      reads this
    {
      State(globals, globalList, registries, registryList, nextName)
    }

    constructor (vis: Filter)
      ensures this.vis == vis && View() == START && Good(View(), vis)
    {
      this.vis := vis;
      globals, globalList, registries, registryList, nextName := map[], [], map[], [], 1;
    }

    method GlobalPublish(r: nat, name: nat)
      requires Live(View(), r, name)
      modifies this`globals, this`registries
      ensures View() == Publish(old(View()), r, name)
    {
      var g, reg := globals[name], registries[r];
      globals := globals[name := g.(offers := [r] + g.offers)];
      registries := registries[r := reg.(offers := [name] + reg.offers, sent := reg.sent + [Announced(name)])];
    }

    method GlobalCreate(version: int, max: int) returns (ok: bool)
      requires Good(View(), vis)
      modifies this
      ensures View() == Step(old(View()), vis, Create(version, max)) && Good(View(), vis)
      ensures ok <==> 1 <= version <= max && old(nextName) < UINT32_MAX
    {
      ghost var start := View();
      if version < 1 || version > max {
        return false;
      }
      if nextName >= UINT32_MAX {
        return false;
      }
      var name := nextName;
      globals := globals[name := Global(false, false, [], 0, true, false)];
      globalList, nextName := globalList + [name], nextName + 1;
      ghost var goal := PublishAll(View(), vis, name, registryList);
      assert goal == CreateGlobal(start, vis, version, max);
      var list := registryList;
      assert list[0..] == list;
      for i := 0 to |list|
        invariant name in globals && forall r <- list :: r in registries
        invariant goal == PublishAll(View(), vis, name, list[i..])
      {
        assert list[i..][1..] == list[i + 1..];
        if vis(list[i], name) {
          GlobalPublish(list[i], name);
        }
      }
      assert Step(start, vis, Create(version, max)) == goal;
      ok := true;
    }

    method DisplayGetRegistry(r: nat)
      requires Good(View(), vis) && r !in registries
      modifies this
      ensures View() == Step(old(View()), vis, NewRegistry(r)) && Good(View(), vis)
    {
      ghost var start := View();
      registries, registryList := registries[r := Registry([], [], false)], [r] + registryList;
      var list := globalList;
      ghost var goal := AnnounceAll(View(), vis, r, list);
      assert goal == GetRegistry(start, vis, r);
      assert list[0..] == list;
      for i := 0 to |list|
        invariant r in registries && forall name <- list :: name in globals
        invariant goal == AnnounceAll(View(), vis, r, list[i..])
      {
        assert list[i..][1..] == list[i + 1..];
        if vis(r, list[i]) && !globals[list[i]].unpublished {
          GlobalPublish(r, list[i]);
        }
      }
      assert Step(start, vis, NewRegistry(r)) == goal;
    }

    method GlobalUnpublish(name: nat)
      requires Linked(View()) && name in globals
      modifies this`globals, this`registries
      ensures View() == Unpublish(old(View()), name)
    {
      assert GlobalOk(View(), name);
      var offers := globals[name].offers;
      for i := 0 to |offers|
        invariant globals == old(globals)
        invariant registries == map r | r in old(registries) ::
          if r in offers[..i] then old(registries)[r].(sent := old(registries)[r].sent + [Withdrawn(name)])
          else old(registries)[r]
      {
        assert offers[i] !in offers[..i] && offers[i] in old(registries);
        var reg := registries[offers[i]];
        registries := registries[offers[i] := reg.(sent := reg.sent + [Withdrawn(name)])];
        assert offers[..i + 1] == offers[..i] + [offers[i]];
      }
      assert offers[..|offers|] == offers;
      var g := globals[name];
      var heard := if g.offers == [] then g.callback else g.heard;
      globals := globals[name := g.(unpublished := true, listening := g.callback, heard := heard)];
    }

    method MaybeFire(name: nat)
      requires name in globals
      modifies this`globals
      ensures View() == Fire(old(View()), name)
    {
      var g := globals[name];
      if g.unpublished && g.callback && g.offers == [] {
        globals := globals[name := g.(fired := g.fired + 1)];
      }
    }

    method GlobalRemove(name: nat)
      requires Good(View(), vis) && Guard(View(), Remove(name))
      modifies this
      ensures View() == Step(old(View()), vis, Remove(name)) && Good(View(), vis)
    {
      GlobalUnpublish(name);
      MaybeFire(name);
    }

    method GlobalSetWithdrawnListener(name: nat, callback: bool)
      requires Good(View(), vis) && name in globals
      modifies this`globals
      ensures View() == Step(old(View()), vis, SetWithdrawn(name, callback)) && Good(View(), vis)
    {
      var g := globals[name];
      globals := globals[name := g.(callback := callback, listening := g.listening && (callback || !g.unpublished))];
    }

    method GlobalOfferDestroy(r: nat, name: nat)
      requires Live(View(), r, name)
      modifies this`globals, this`registries
      ensures View() == OfferDestroy(old(View()), r, name)
    {
      var g, reg := globals[name], registries[r];
      var rest := Without(g.offers, r);
      var last := g.unpublished && g.offers != [] && rest == [];
      globals := globals[name := g.(offers := rest, heard := if last then g.callback else g.heard)];
      registries := registries[r := reg.(offers := Without(reg.offers, name))];
    }

    method GlobalOfferDone(r: nat, name: nat)
      requires Live(View(), r, name)
      modifies this`globals, this`registries
      ensures View() == OfferDone(old(View()), r, name)
    {
      GlobalOfferDestroy(r, name);
      MaybeFire(name);
    }

    method RegistryFindOffer(r: nat, name: nat) returns (found: bool)
      requires r in registries
      ensures found <==> name in registries[r].offers
    {
      var offers := registries[r].offers;
      for i := 0 to |offers|
        invariant name !in offers[..i]
      {
        if offers[i] == name {
          return true;
        }
        assert offers[..i + 1] == offers[..i] + [offers[i]];
      }
      assert offers[..|offers|] == offers;
      found := false;
    }

    method HandleAckGlobalRemove(r: nat, name: nat) returns (refused: Option<Error>)
      requires Good(View(), vis) && r in registries && !registries[r].dying
      modifies this`globals, this`registries
      ensures View() == Step(old(View()), vis, Ack(r, name)) && Good(View(), vis)
      ensures refused == Acknowledge(old(View()), r, name).1
    {
      assert RegistryOk(View(), r);
      var found := RegistryFindOffer(r, name);
      if !found {
        return Some(NotAnnounced);
      }
      if !globals[name].unpublished {
        return Some(NotRemoved);
      }
      GlobalOfferDone(r, name);
      refused := None;
    }

    method DoneWithFirst(r: nat)
      requires Good(View(), vis) && Guard(View(), OneOfferDone(r))
      modifies this`globals, this`registries
      ensures View() == Step(old(View()), vis, OneOfferDone(r)) && Good(View(), vis)
    {
      EndOfferKeeps(View(), vis, r);
      GlobalOfferDone(r, registries[r].offers[0]);
    }

    /** Anything a callback may call. The end of another registry comes in pieces. */
    method Perform(act: Act)
      requires Good(View(), vis) && Guard(View(), act)
      modifies this
      ensures View() == Step(old(View()), vis, act) && Good(View(), vis)
    {
      match act
      case Create(version, max) => var ok := GlobalCreate(version, max);
      case NewRegistry(r) => DisplayGetRegistry(r);
      case Remove(name) => GlobalRemove(name);
      case SetWithdrawn(name, callback) => GlobalSetWithdrawnListener(name, callback);
      case Ack(r, name) => var refused := HandleAckGlobalRemove(r, name);
      case Dying(r) => registries := registries[r := registries[r].(dying := true)];
      case OneOfferDone(r) => DoneWithFirst(r);
      case Gone(r) => registries, registryList := registries - {r}, Without(registryList, r);
      case Destroy(name) => GlobalDestroy(name);
    }

    /** What a callback does while registry `r` is dying. */
    method PerformAll(script: seq<Act>, r: nat)
      requires IsDying(View(), vis, r)
      modifies this
      ensures IsDying(View(), vis, r) && View() == AfterCallback(old(View()), vis, r, script)
    {
      assert script[0..] == script;
      for i := 0 to |script|
        invariant IsDying(View(), vis, r)
        invariant AfterCallback(View(), vis, r, script[i..]) == AfterCallback(old(View()), vis, r, script)
      {
        assert script[i..][1..] == script[i + 1..];
        var now := State(globals, globalList, registries, registryList, nextName);
        if script[i] != Gone(r) && Guard(now, script[i]) {
          StaysDying(View(), vis, script[i], r);
          Perform(script[i]);
        }
      }
    }

    /** One offer, and what the callback does if it runs. */
    method DoneWithNext(r: nat, script: seq<seq<Act>>) returns (rest: seq<seq<Act>>)
      requires IsDying(View(), vis, r) && registries[r].offers != []
      modifies this
      ensures IsDying(View(), vis, r)
      ensures Unbound(View(), vis, r, rest) == Unbound(old(View()), vis, r, script)
      ensures |rest| < |script| || (rest == script && |registries[r].offers| < |old(registries)[r].offers|)
    {
      assert RegistryOk(View(), r);
      var g := globals[registries[r].offers[0]];
      var fires := g.unpublished && g.callback && Without(g.offers, r) == [];
      OfferShrinks(View(), vis, r);
      StaysDying(View(), vis, OneOfferDone(r), r);
      DoneWithFirst(r);
      rest := script;
      if fires && |script| > 0 {
        PerformAll(script[0], r);
        rest := script[1..];
      }
    }

    /** The loop over the offers of a registry that goes away. Any callback that runs may do
        what its script says, also to this registry's offers. */
    method UnbindRegistry(r: nat, script: seq<seq<Act>>)
      requires Good(View(), vis) && Guard(View(), Dying(r))
      modifies this
      ensures Good(View(), vis) && r !in registries
      ensures IsDying(Step(old(View()), vis, Dying(r)), vis, r)
      ensures View() == Unbound(Step(old(View()), vis, Dying(r)), vis, r, script)
    {
      Perform(Dying(r));
      ghost var start := View();
      var rest := script;
      while registries[r].offers != []
        invariant IsDying(View(), vis, r)
        invariant Unbound(View(), vis, r, rest) == Unbound(start, vis, r, script)
        decreases |rest|, |registries[r].offers|
      {
        rest := DoneWithNext(r, rest);
      }
      Perform(Gone(r));
    }

    method GlobalDestroy(name: nat)
      requires Good(View(), vis) && name in globals
      modifies this
      ensures View() == Step(old(View()), vis, Destroy(name)) && Good(View(), vis)
    {
      ghost var start := View();
      ghost var goal := Step(start, vis, Destroy(name));
      if !globals[name].unpublished {
        UnpublishKeeps(View(), name);
        GlobalUnpublish(name);
      }
      ghost var before := View();
      globalList := Without(globalList, name);
      ListIsNotLinked(before, View());
      DropKeeps(View(), name);
      assert goal == Drop(View(), name);
      while globals[name].offers != []
        invariant Linked(View()) && name in globals
        invariant forall r <- globals[name].offers :: r in registries
        invariant goal == Drop(View(), name)
        decreases |globals[name].offers|
      {
        var r := globals[name].offers[0];
        OfferDestroyKeeps(View(), r, name);
        WithoutShrinks(globals[name].offers, r);
        GlobalOfferDestroy(r, name);
        DropKeeps(View(), name);
      }
      globals := globals - {name};
    }
  }
}
