/** `TypeMap` under concurrency: cache load, single flight per type, second cache load,
    mapping, store. Each invocation is one thread of control and any number may run. */
module TypeMapProtocol {
  import opened Text
  import opened Types

  /** An invocation, a flight, a struct map: each is named by a number. */
  type Pid = nat
  type FlightId = nat
  type MapId = nat

  /** Where an invocation stands. The last four before `Done` are those of a leader. */
  datatype Pc =
    | Entered(t: TypeId)
    | Missed(t: TypeId)
    | Waiting(f: FlightId)
    | Checking(f: FlightId)
    | Mapping(f: FlightId)
    | Storing(f: FlightId, sm: MapId)
    | Finishing(f: FlightId, sm: MapId)
    | Done(t: TypeId, sm: MapId)

  datatype Flight = Flight(t: TypeId, leader: Pid, result: Option<MapId>)

  /** `mapped` lists the runs of `mapType`; run number `i` made struct map `i` of type
      `mapped[i]`. */
  datatype State = State(
    pcs: map<Pid, Pc>, flights: seq<Flight>, inFlight: map<TypeId, FlightId>,
    cache: map<TypeId, MapId>, mapped: seq<TypeId>)

  const INIT := State(map[], [], map[], map[], [])

  predicate Leads(pc: Pc) {
    pc.Checking? || pc.Mapping? || pc.Storing? || pc.Finishing?
  }

  /** What invocation `p` does next, if it can do anything. */
  function Moved(s: State, p: Pid): Option<State>
    requires p in s.pcs
  {
    match s.pcs[p]
    case Entered(t) =>
      Some(s.(pcs := s.pcs[p := if t in s.cache then Done(t, s.cache[t]) else Missed(t)]))
    case Missed(t) =>
      if t in s.inFlight then
        Some(s.(pcs := s.pcs[p := Waiting(s.inFlight[t])]))
      else
        var f := |s.flights|;
        Some(s.(pcs := s.pcs[p := Checking(f)], flights := s.flights + [Flight(t, p, None)],
                inFlight := s.inFlight[t := f]))
    case Waiting(f) =>
      if f < |s.flights| && s.flights[f].result.Some? then
        Some(s.(pcs := s.pcs[p := Done(s.flights[f].t, s.flights[f].result.value)]))
      else None
    case Checking(f) =>
      if f < |s.flights| then
        var t := s.flights[f].t;
        Some(s.(pcs := s.pcs[p := if t in s.cache then Finishing(f, s.cache[t]) else Mapping(f)]))
      else None
    case Mapping(f) =>
      if f < |s.flights| then
        Some(s.(pcs := s.pcs[p := Storing(f, |s.mapped|)], mapped := s.mapped + [s.flights[f].t]))
      else None
    case Storing(f, sm) =>
      if f < |s.flights| then
        Some(s.(pcs := s.pcs[p := Finishing(f, sm)], cache := s.cache[s.flights[f].t := sm]))
      else None
    case Finishing(f, sm) =>
      if f < |s.flights| then
        var flight := s.flights[f];
        Some(s.(pcs := s.pcs[p := Done(flight.t, sm)], flights := s.flights[f := flight.(result := Some(sm))],
                inFlight := s.inFlight - {flight.t}))
      else None
    case Done(_, _) => None
  }

  /** One step of the system: an invocation begins, for a type or a pointer to it, or one
      that runs moves on. */
  predicate Next(env: Env, s: State, s': State, p: Pid, requested: TypeId) {
    if p in s.pcs then Moved(s, p) == Some(s')
    else s' == s.(pcs := s.pcs[p := Entered(Deref(env, requested))])
  }

  ghost predicate Stepped(env: Env, s: State, s': State) {
    exists p, r :: Next(env, s, s', p, r)
  }

  /** A run: any interleaving of steps from the initial state. */
  ghost predicate IsRun(env: Env, run: seq<State>) {
    && run != [] && run[0] == INIT
    && forall i :: 0 < i < |run| ==> Stepped(env, run[i - 1], run[i])
  }

  // ---- the invariant ---------------------------------------------------------------------

  /** Flights in the table are open, and each open flight is led by an invocation that
      is still at work on it. */
  ghost predicate FlightsLed(s: State) {
    && (forall t :: t in s.inFlight ==>
          s.inFlight[t] < |s.flights| && s.flights[s.inFlight[t]].t == t && s.flights[s.inFlight[t]].result == None)
    && (forall f :: 0 <= f < |s.flights| && s.flights[f].result == None ==>
          && s.flights[f].leader in s.pcs
          && Leads(s.pcs[s.flights[f].leader]) && s.pcs[s.flights[f].leader].f == f)
  }

  /** Only the leader of an open flight of the table leads. */
  ghost predicate LeadersKnown(s: State) {
    && (forall p :: p in s.pcs && s.pcs[p].Waiting? ==> s.pcs[p].f < |s.flights|)
    && (forall p :: p in s.pcs && Leads(s.pcs[p]) ==>
          && s.pcs[p].f < |s.flights| && s.flights[s.pcs[p].f].leader == p
          && s.flights[s.pcs[p].f].result == None
          && s.flights[s.pcs[p].f].t in s.inFlight && s.inFlight[s.flights[s.pcs[p].f].t] == s.pcs[p].f)
  }

  /** What is cached was made for its type, and everything made is cached or about to be. */
  ghost predicate CacheMade(s: State) {
    && (forall t :: t in s.cache ==> s.cache[t] < |s.mapped| && s.mapped[s.cache[t]] == t)
    && (forall i :: 0 <= i < |s.mapped| ==>
          || (s.mapped[i] in s.cache && s.cache[s.mapped[i]] == i)
          || (&& s.mapped[i] !in s.cache && s.mapped[i] in s.inFlight && s.inFlight[s.mapped[i]] < |s.flights|
              && var f := s.inFlight[s.mapped[i]];
                 s.flights[f].leader in s.pcs && s.pcs[s.flights[f].leader] == Storing(f, i)))
  }

  /** Each position of an invocation means what it should. */
  ghost predicate PcsMean(s: State)
    requires LeadersKnown(s)
  {
    && (forall p :: p in s.pcs && s.pcs[p].Mapping? ==>
          s.flights[s.pcs[p].f].t !in s.cache && s.flights[s.pcs[p].f].t !in s.mapped)
    && (forall p :: p in s.pcs && s.pcs[p].Storing? ==>
          && s.flights[s.pcs[p].f].t !in s.cache
          && s.pcs[p].sm < |s.mapped| && s.mapped[s.pcs[p].sm] == s.flights[s.pcs[p].f].t)
    && (forall p :: p in s.pcs && s.pcs[p].Finishing? ==>
          s.flights[s.pcs[p].f].t in s.cache && s.cache[s.flights[s.pcs[p].f].t] == s.pcs[p].sm)
    && (forall p :: p in s.pcs && s.pcs[p].Done? ==>
          s.pcs[p].t in s.cache && s.cache[s.pcs[p].t] == s.pcs[p].sm)
    && (forall f :: 0 <= f < |s.flights| && s.flights[f].result.Some? ==>
          s.flights[f].t in s.cache && s.cache[s.flights[f].t] == s.flights[f].result.value)
  }

  ghost predicate Inv(s: State) {
    FlightsLed(s) && LeadersKnown(s) && CacheMade(s) && PcsMean(s)
  }

  lemma BeginKeepsFlights(s: State, p: Pid, t: TypeId)
    requires Inv(s) && p !in s.pcs
    ensures FlightsLed(s.(pcs := s.pcs[p := Entered(t)])) && LeadersKnown(s.(pcs := s.pcs[p := Entered(t)]))
  {
    hide CacheMade, PcsMean;
  }

  lemma BeginKeepsCache(s: State, p: Pid, t: TypeId)
    requires CacheMade(s) && p !in s.pcs
    ensures CacheMade(s.(pcs := s.pcs[p := Entered(t)]))
  {
  }

  lemma BeginKeepsPcs(s: State, p: Pid, t: TypeId)
    requires LeadersKnown(s) && PcsMean(s) && p !in s.pcs
    requires LeadersKnown(s.(pcs := s.pcs[p := Entered(t)]))
    ensures PcsMean(s.(pcs := s.pcs[p := Entered(t)]))
  {
  }

  lemma BeginKeepsInv(s: State, p: Pid, t: TypeId)
    requires Inv(s) && p !in s.pcs
    ensures Inv(s.(pcs := s.pcs[p := Entered(t)]))
  {
    hide FlightsLed, LeadersKnown, CacheMade, PcsMean;
    BeginKeepsFlights(s, p, t);
    BeginKeepsCache(s, p, t);
    BeginKeepsPcs(s, p, t);
  }

  lemma EnteredKeepsFlights(s: State, p: Pid, s': State)
    requires Inv(s) && p in s.pcs && s.pcs[p].Entered? && Moved(s, p) == Some(s')
    ensures FlightsLed(s') && LeadersKnown(s')
  {
    hide CacheMade, PcsMean;
  }

  lemma EnteredKeepsCache(s: State, p: Pid, s': State)
    requires Inv(s) && p in s.pcs && s.pcs[p].Entered? && Moved(s, p) == Some(s')
    ensures CacheMade(s')
  {
  }

  lemma EnteredKeepsPcs(s: State, p: Pid, s': State)
    requires Inv(s) && p in s.pcs && s.pcs[p].Entered? && Moved(s, p) == Some(s') && LeadersKnown(s')
    ensures PcsMean(s')
  {
    hide FlightsLed, CacheMade;
  }

  lemma EnteredKeepsInv(s: State, p: Pid, s': State)
    requires Inv(s) && p in s.pcs && s.pcs[p].Entered? && Moved(s, p) == Some(s')
    ensures Inv(s')
  {
    hide FlightsLed, LeadersKnown, CacheMade, PcsMean;
    EnteredKeepsFlights(s, p, s');
    EnteredKeepsCache(s, p, s');
    EnteredKeepsPcs(s, p, s');
  }

  lemma MissedKeepsFlights(s: State, p: Pid, s': State)
    requires Inv(s) && p in s.pcs && s.pcs[p].Missed? && Moved(s, p) == Some(s')
    ensures FlightsLed(s') && LeadersKnown(s')
  {
    hide CacheMade, PcsMean;
  }

  lemma MissedKeepsCache(s: State, p: Pid, s': State)
    requires Inv(s) && p in s.pcs && s.pcs[p].Missed? && Moved(s, p) == Some(s')
    ensures CacheMade(s')
  {
  }

  lemma MissedKeepsPcs(s: State, p: Pid, s': State)
    requires Inv(s) && p in s.pcs && s.pcs[p].Missed? && Moved(s, p) == Some(s') && LeadersKnown(s')
    ensures PcsMean(s')
  {
    hide FlightsLed, CacheMade;
  }

  lemma MissedKeepsInv(s: State, p: Pid, s': State)
    requires Inv(s) && p in s.pcs && s.pcs[p].Missed? && Moved(s, p) == Some(s')
    ensures Inv(s')
  {
    hide FlightsLed, LeadersKnown, CacheMade, PcsMean;
    MissedKeepsFlights(s, p, s');
    MissedKeepsCache(s, p, s');
    MissedKeepsPcs(s, p, s');
  }

  lemma WaitingKeepsFlights(s: State, p: Pid, s': State)
    requires Inv(s) && p in s.pcs && s.pcs[p].Waiting? && Moved(s, p) == Some(s')
    ensures FlightsLed(s') && LeadersKnown(s')
  {
    hide CacheMade, PcsMean;
  }

  lemma WaitingKeepsCache(s: State, p: Pid, s': State)
    requires Inv(s) && p in s.pcs && s.pcs[p].Waiting? && Moved(s, p) == Some(s')
    ensures CacheMade(s')
  {
  }

  lemma WaitingKeepsPcs(s: State, p: Pid, s': State)
    requires Inv(s) && p in s.pcs && s.pcs[p].Waiting? && Moved(s, p) == Some(s') && LeadersKnown(s')
    ensures PcsMean(s')
  {
    hide FlightsLed, CacheMade;
  }

  lemma WaitingKeepsInv(s: State, p: Pid, s': State)
    requires Inv(s) && p in s.pcs && s.pcs[p].Waiting? && Moved(s, p) == Some(s')
    ensures Inv(s')
  {
    hide FlightsLed, LeadersKnown, CacheMade, PcsMean;
    WaitingKeepsFlights(s, p, s');
    WaitingKeepsCache(s, p, s');
    WaitingKeepsPcs(s, p, s');
  }

  /** Before a leader maps its type, a map of that type can only be in the cache. */
  lemma MappedIsCached(s: State, p: Pid)
    requires Inv(s) && p in s.pcs && s.pcs[p].Checking?
    ensures s.flights[s.pcs[p].f].t in s.mapped ==> s.flights[s.pcs[p].f].t in s.cache
  {
    var f := s.pcs[p].f;
    forall i | 0 <= i < |s.mapped| && s.mapped[i] == s.flights[f].t
      ensures s.flights[f].t in s.cache
    {
    }
  }

  lemma CheckingKeepsFlights(s: State, p: Pid, s': State)
    requires Inv(s) && p in s.pcs && s.pcs[p].Checking? && Moved(s, p) == Some(s')
    ensures FlightsLed(s') && LeadersKnown(s')
  {
    hide CacheMade, PcsMean;
  }

  lemma CheckingKeepsCache(s: State, p: Pid, s': State)
    requires Inv(s) && p in s.pcs && s.pcs[p].Checking? && Moved(s, p) == Some(s')
    ensures CacheMade(s')
  {
    hide PcsMean;
  }

  lemma CheckingKeepsInv(s: State, p: Pid, s': State)
    requires Inv(s) && p in s.pcs && s.pcs[p].Checking? && Moved(s, p) == Some(s')
    ensures Inv(s')
  {
    MappedIsCached(s, p);
    CheckingKeepsFlights(s, p, s');
    CheckingKeepsCache(s, p, s');
    hide FlightsLed, CacheMade;
  }

  lemma MappingKeepsFlights(s: State, p: Pid, s': State)
    requires Inv(s) && p in s.pcs && s.pcs[p].Mapping? && Moved(s, p) == Some(s')
    ensures FlightsLed(s') && LeadersKnown(s')
  {
    hide CacheMade, PcsMean;
  }

  lemma MappingKeepsCache(s: State, p: Pid, s': State)
    requires Inv(s) && p in s.pcs && s.pcs[p].Mapping? && Moved(s, p) == Some(s')
    ensures CacheMade(s')
  {
  }

  lemma MappingKeepsPcs(s: State, p: Pid, s': State)
    requires Inv(s) && p in s.pcs && s.pcs[p].Mapping? && Moved(s, p) == Some(s') && LeadersKnown(s')
    ensures PcsMean(s')
  {
    hide FlightsLed, CacheMade;
  }

  lemma MappingKeepsInv(s: State, p: Pid, s': State)
    requires Inv(s) && p in s.pcs && s.pcs[p].Mapping? && Moved(s, p) == Some(s')
    ensures Inv(s')
  {
    hide FlightsLed, LeadersKnown, CacheMade, PcsMean;
    MappingKeepsFlights(s, p, s');
    MappingKeepsCache(s, p, s');
    MappingKeepsPcs(s, p, s');
  }

  lemma StoringKeepsFlights(s: State, p: Pid, s': State)
    requires Inv(s) && p in s.pcs && s.pcs[p].Storing? && Moved(s, p) == Some(s')
    ensures FlightsLed(s') && LeadersKnown(s')
  {
    hide CacheMade, PcsMean;
  }

  lemma StoringKeepsCache(s: State, p: Pid, s': State)
    requires Inv(s) && p in s.pcs && s.pcs[p].Storing? && Moved(s, p) == Some(s')
    ensures CacheMade(s')
  {
  }

  lemma StoringKeepsPcs(s: State, p: Pid, s': State)
    requires Inv(s) && p in s.pcs && s.pcs[p].Storing? && Moved(s, p) == Some(s') && LeadersKnown(s')
    ensures PcsMean(s')
  {
    hide FlightsLed, CacheMade;
  }

  lemma StoringKeepsInv(s: State, p: Pid, s': State)
    requires Inv(s) && p in s.pcs && s.pcs[p].Storing? && Moved(s, p) == Some(s')
    ensures Inv(s')
  {
    hide FlightsLed, LeadersKnown, CacheMade, PcsMean;
    StoringKeepsFlights(s, p, s');
    StoringKeepsCache(s, p, s');
    StoringKeepsPcs(s, p, s');
  }

  lemma FinishingKeepsFlights(s: State, p: Pid, s': State)
    requires Inv(s) && p in s.pcs && s.pcs[p].Finishing? && Moved(s, p) == Some(s')
    ensures FlightsLed(s') && LeadersKnown(s')
  {
    hide CacheMade, PcsMean;
  }

  lemma FinishingKeepsCache(s: State, p: Pid, s': State)
    requires Inv(s) && p in s.pcs && s.pcs[p].Finishing? && Moved(s, p) == Some(s')
    ensures CacheMade(s')
  {
  }

  lemma FinishingKeepsPcs(s: State, p: Pid, s': State)
    requires Inv(s) && p in s.pcs && s.pcs[p].Finishing? && Moved(s, p) == Some(s') && LeadersKnown(s')
    ensures PcsMean(s')
  {
    hide FlightsLed, CacheMade;
  }

  lemma FinishingKeepsInv(s: State, p: Pid, s': State)
    requires Inv(s) && p in s.pcs && s.pcs[p].Finishing? && Moved(s, p) == Some(s')
    ensures Inv(s')
  {
    hide FlightsLed, LeadersKnown, CacheMade, PcsMean;
    FinishingKeepsFlights(s, p, s');
    FinishingKeepsCache(s, p, s');
    FinishingKeepsPcs(s, p, s');
  }

  lemma MoveKeepsInv(s: State, p: Pid, s': State)
    requires Inv(s) && p in s.pcs && Moved(s, p) == Some(s')
    ensures Inv(s')
  {
    hide Inv;
    match s.pcs[p]
    case Entered(_) => EnteredKeepsInv(s, p, s');
    case Missed(_) => MissedKeepsInv(s, p, s');
    case Waiting(_) => WaitingKeepsInv(s, p, s');
    case Checking(_) => CheckingKeepsInv(s, p, s');
    case Mapping(_) => MappingKeepsInv(s, p, s');
    case Storing(_, _) => StoringKeepsInv(s, p, s');
    case Finishing(_, _) => FinishingKeepsInv(s, p, s');
  }

  lemma {:induction false} RunsKeepInv(env: Env, run: seq<State>, i: nat)
    requires IsRun(env, run) && i < |run|
    ensures Inv(run[i])
  {
    if i > 0 {
      RunsKeepInv(env, run, i - 1);
      var p, r :| Next(env, run[i - 1], run[i], p, r);
      if p in run[i - 1].pcs {
        MoveKeepsInv(run[i - 1], p, run[i]);
      } else {
        BeginKeepsInv(run[i - 1], p, Deref(env, r));
      }
    }
  }

  // ---- every invocation is about the type it was called for --------------------------------

  /** The type an invocation is about: the one it carries, or that of its flight. */
  function About(s: State, p: Pid): TypeId
    requires LeadersKnown(s) && p in s.pcs
  {
    match s.pcs[p]
    case Entered(t) => t
    case Missed(t) => t
    case Done(t, _) => t
    case Waiting(f) => s.flights[f].t
    case Checking(f) => s.flights[f].t
    case Mapping(f) => s.flights[f].t
    case Storing(f, _) => s.flights[f].t
    case Finishing(f, _) => s.flights[f].t
  }

  /** A move changes one invocation, and no flight's type. */
  lemma MoveIsLocal(s: State, p: Pid, s': State)
    requires p in s.pcs && Moved(s, p) == Some(s')
    ensures p in s'.pcs && s'.pcs == s.pcs[p := s'.pcs[p]] && |s.flights| <= |s'.flights|
    ensures forall f :: 0 <= f < |s.flights| ==> s'.flights[f].t == s.flights[f].t
  {
  }

  /** An invocation goes on being about its type. If it joins a flight, that flight was found
      under the type and so is a flight for it. */
  lemma MoverKeepsAbout(s: State, p: Pid, s': State)
    requires FlightsLed(s) && LeadersKnown(s) && LeadersKnown(s') && p in s.pcs && Moved(s, p) == Some(s')
    ensures p in s'.pcs && About(s', p) == About(s, p)
  {
    MoveIsLocal(s, p, s');
    assert s.pcs[p].Missed? && s.pcs[p].t in s.inFlight ==> s.flights[s.inFlight[s.pcs[p].t]].t == s.pcs[p].t;
    assert Leads(s.pcs[p]) ==> s.pcs[p].f < |s.flights|;
    hide FlightsLed, LeadersKnown;
  }

  lemma OthersKeepAbout(s: State, p: Pid, s': State, x: Pid)
    requires LeadersKnown(s) && LeadersKnown(s')
    requires x in s.pcs && x != p && p in s'.pcs && s'.pcs == s.pcs[p := s'.pcs[p]]
    requires |s.flights| <= |s'.flights| && forall f :: 0 <= f < |s.flights| ==> s'.flights[f].t == s.flights[f].t
    ensures x in s'.pcs && About(s', x) == About(s, x)
  {
    assert s'.pcs[x] == s.pcs[x];
    assert Leads(s.pcs[x]) || s.pcs[x].Waiting? ==> s.pcs[x].f < |s.flights|;
    hide LeadersKnown;
  }

  /** No step changes what any invocation is about. */
  lemma StepKeepsAbout(env: Env, s: State, s': State, x: Pid)
    requires Inv(s) && Inv(s') && Stepped(env, s, s') && x in s.pcs
    ensures x in s'.pcs && About(s', x) == About(s, x)
  {
    hide FlightsLed, LeadersKnown, CacheMade, PcsMean, About, Moved;
    var p, r :| Next(env, s, s', p, r);
    if p in s.pcs {
      MoveIsLocal(s, p, s');
      if x == p {
        MoverKeepsAbout(s, p, s');
      } else {
        OthersKeepAbout(s, p, s', x);
      }
    } else {
      OthersKeepAbout(s, p, s', x);
    }
  }

  lemma {:induction false} RunKeepsAbout(env: Env, run: seq<State>, k: nat, i: nat, p: Pid)
    requires IsRun(env, run) && k <= i < |run| && p in run[k].pcs
    ensures Inv(run[k]) && Inv(run[i])
    ensures p in run[i].pcs && About(run[i], p) == About(run[k], p)
  {
    hide FlightsLed, LeadersKnown, CacheMade, PcsMean, About, Stepped;
    RunsKeepInv(env, run, k);
    RunsKeepInv(env, run, i);
    if k < i {
      RunKeepsAbout(env, run, k, i - 1, p);
      StepKeepsAbout(env, run[i - 1], run[i], p);
    }
  }

  /** Whoever asks for a type gets that type's map: an invocation that entered for `t` and
      is finished holds the map of `t`, however it came by it. */
  lemma AskedIsAnswered(env: Env, run: seq<State>, k: nat, i: nat, p: Pid, t: TypeId)
    requires IsRun(env, run) && k <= i < |run|
    requires p in run[k].pcs && run[k].pcs[p] == Entered(t)
    ensures p in run[i].pcs
    ensures run[i].pcs[p].Done? ==>
              && run[i].pcs[p].t == t
              && run[i].pcs[p].sm < |run[i].mapped| && run[i].mapped[run[i].pcs[p].sm] == t
  {
    RunKeepsAbout(env, run, k, i, p);
  }

  /** A call for a type or for a pointer to it gets the map of the type. */
  lemma RequestIsAnswered(env: Env, run: seq<State>, k: nat, i: nat, p: Pid, requested: TypeId)
    requires IsRun(env, run) && 0 < k <= i < |run|
    requires p !in run[k - 1].pcs && Next(env, run[k - 1], run[k], p, requested)
    ensures var t := if requested in env && env[requested].shape.Pointer? then env[requested].shape.elem else requested;
            p in run[i].pcs
            && (run[i].pcs[p].Done? ==>
                  && run[i].pcs[p].t == t
                  && run[i].pcs[p].sm < |run[i].mapped| && run[i].mapped[run[i].pcs[p].sm] == t)
  {
    AskedIsAnswered(env, run, k, i, p, Deref(env, requested));
  }

  /** In every interleaving of any number of invocations: no type is mapped twice, and all
      finished invocations that were called for one type hold the same map, which is that
      type's. */
  lemma OneMapPerType(env: Env, run: seq<State>, i: nat)
    requires IsRun(env, run) && i < |run|
    ensures var s := run[i];
            && (forall j, k :: 0 <= j < k < |s.mapped| ==> s.mapped[j] != s.mapped[k])
            && (forall p, q ::
                  p in s.pcs && q in s.pcs && s.pcs[p].Done? && s.pcs[q].Done? && s.pcs[p].t == s.pcs[q].t ==>
                    s.pcs[p].sm == s.pcs[q].sm)
            && (forall p, k :: 0 <= k <= i && p in run[k].pcs && run[k].pcs[p].Entered?
                               && p in s.pcs && s.pcs[p].Done? ==>
                    s.pcs[p].t == run[k].pcs[p].t)
            && (forall p :: p in s.pcs && s.pcs[p].Done? ==>
                  s.pcs[p].sm < |s.mapped| && s.mapped[s.pcs[p].sm] == s.pcs[p].t)
  {
    RunsKeepInv(env, run, i);
    forall p, k | 0 <= k <= i && p in run[k].pcs && run[k].pcs[p].Entered? && p in run[i].pcs && run[i].pcs[p].Done?
      ensures run[i].pcs[p].t == run[k].pcs[p].t
    {
      AskedIsAnswered(env, run, k, i, p, run[k].pcs[p].t);
    }
  }

  /** The steps an invocation still has before it. */
  function Remaining(pc: Pc): nat {
    match pc
    case Entered(_) => 6
    case Missed(_) => 5
    case Checking(_) => 4
    case Mapping(_) => 3
    case Storing(_, _) => 2
    case Finishing(_, _) => 1
    case Waiting(_) => 1
    case Done(_, _) => 0
  }

  /** Nobody waits for ever: in every reachable state with an unfinished invocation some
      invocation can move, and each move brings its invocation closer to its end and
      leaves the others where they are. */
  lemma SomebodyMoves(env: Env, run: seq<State>, i: nat, p: Pid) returns (q: Pid)
    requires IsRun(env, run) && i < |run| && p in run[i].pcs && !run[i].pcs[p].Done?
    ensures q in run[i].pcs && Moved(run[i], q).Some?
    ensures var s' := Moved(run[i], q).value;
            && s'.pcs.Keys == run[i].pcs.Keys && Remaining(s'.pcs[q]) < Remaining(run[i].pcs[q])
            && forall x :: x in run[i].pcs && x != q ==> s'.pcs[x] == run[i].pcs[x]
  {
    RunsKeepInv(env, run, i);
    var s := run[i];
    q := if s.pcs[p].Waiting? && s.flights[s.pcs[p].f].result == None then s.flights[s.pcs[p].f].leader else p;
    hide CacheMade, PcsMean, IsRun;
    CanMove(s, q);
  }

  lemma CanMove(s: State, q: Pid)
    requires FlightsLed(s) && LeadersKnown(s) && q in s.pcs && !s.pcs[q].Done?
    requires s.pcs[q].Waiting? ==> s.flights[s.pcs[q].f].result.Some?
    ensures Moved(s, q).Some?
    ensures var s' := Moved(s, q).value;
            && s'.pcs.Keys == s.pcs.Keys && Remaining(s'.pcs[q]) < Remaining(s.pcs[q])
            && forall x :: x in s.pcs && x != q ==> s'.pcs[x] == s.pcs[x]
  {
    assert Leads(s.pcs[q]) ==> s.pcs[q].f < |s.flights|;
    var s' := Moved(s, q).value;
    assert s'.pcs == s.pcs[q := s'.pcs[q]];
  }
}
