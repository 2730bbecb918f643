/** How many modules the kernel cache loads: one per object and device in every run, exactly when no two calls
    ask for the same loadable kernel. */
module ModuleLoads {
  import opened Options
  import opened FlatZip
  import opened Aks2
  import opened KernelStore
  import opened KernelCache

  /** The archive on disk holds an image for this object. */
  ghost predicate Loadable(c: Config, info: Info) {
    && Listed(c, info.zip).ok
    && var dir := InnerMap(Listed(c, info.zip).visits);
       info.entry in dir && HoldsImage(OpenAt(c, info.zip, dir[info.entry]), info.stem)
  }

  ghost predicate HoldsImage(o: Opened, stem: Name) { o.status == Success && FilterOf(o, stem).Image? }

  /** A state at the end of some run. */
  ghost predicate Reached(c: Config, s: State) {
    exists states, movers, choices :: Run(c, states, movers, choices) && states[|states| - 1] == s
  }

  ghost predicate ModulesDiffer(s: State) {
    forall h, k :: 0 <= h < k < |s.modules| ==> s.modules[h] != s.modules[k]
  }

  /** Two calls ask for the same function of a loadable kernel. */
  ghost predicate Coincide(c: Config, t: nat, u: nat) {
    t < u < |c.calls| && c.calls[t] == c.calls[u] && c.calls[t].obj < |c.infos| && Loadable(c, c.infos[c.calls[t].obj])
  }

  // ---------------------------------------------------------------- reached states

  lemma InitReached(c: Config, s: State)
    requires Init(c, s)
    ensures Reached(c, s)
  {
    assert Run(c, [s], [], []) && [s][|[s]| - 1] == s;
  }

  lemma StepReached(c: Config, s: State, s': State, t: nat, choice: Choice)
    requires Reached(c, s) && Step(c, s, s', t, choice)
    ensures Reached(c, s')
  {
    hide Step, Init;
    var states, movers, choices :| Run(c, states, movers, choices) && states[|states| - 1] == s;
    var states', movers', choices' := states + [s'], movers + [t], choices + [choice];
    forall i | 0 <= i < |movers'| ensures Step(c, states'[i], states'[i + 1], movers'[i], choices'[i]) {
      if i < |movers| { assert Step(c, states[i], states[i + 1], movers[i], choices[i]); }
    }
    assert states'[0] == states[0];
    assert Run(c, states', movers', choices') && states'[|states'| - 1] == s';
  }

  lemma ReachedInv(c: Config, s: State)
    requires Reached(c, s)
    ensures Inv(c, s)
  {
    hide Inv, Init, Step;
    var states, movers, choices :| Run(c, states, movers, choices) && states[|states| - 1] == s;
    RunInv(c, states, movers, choices, |states| - 1);
  }

  // ---------------------------------------------------------------- calls that differ

  /** Past hipModuleLoadDataEx, which a call passes at most once. */
  predicate Past(pc: Pc) { pc.GetFunction? || pc.Emplace? || pc.Finished? || pc.Threw? }

  ghost predicate LoadedBy(c: Config, s: State, call: Call) {
    exists t :: 0 <= t < |s.pcs| && t < |c.calls| && c.calls[t] == call && Past(s.pcs[t])
  }

  /** Every module was loaded by a call that has gone past loading, and no two are alike. */
  ghost predicate LoadsInv(c: Config, s: State) {
    ModulesDiffer(s) && forall h :: 0 <= h < |s.modules| ==> LoadedBy(c, s, s.modules[h])
  }

  lemma ImageMeansLoadable(c: Config, s: State, o: nat)
    requires Inv(c, s) && o < |s.objs| && s.objs[o].essentials.Image?
    ensures Loadable(c, c.infos[o])
  {
    hide RegistryOk, ThreadsOk, Exclusion, BadHidden, Listed, OpenAt, FilterOf, InnerMap;
    assert ObjOk(c.infos[o], c, o, s.objs[o], s.modules, s.leaked);
  }

  /** What one step can do to the log, and to a call past loading. */
  lemma StepLoads(c: Config, s: State, s': State, t: nat, choice: Choice)
    requires Step(c, s, s', t, choice)
    ensures Past(s.pcs[t]) ==> Past(s'.pcs[t])
    ensures s'.modules == s.modules
            || (s.pcs[t].LoadModule? && Past(s'.pcs[t]) && s.objs[c.calls[t].obj].essentials.Image? && s'.modules == s.modules + [c.calls[t]])
  {
    var call, pc := c.calls[t], s.pcs[t];
    var obj, info := s.objs[call.obj], c.infos[call.obj];
    var e := Effect(pc, obj, s.registry, s.modules, s.leaked);
    OpenStepSharesLog(c, info, pc, s.registry, choice, e);
    hide OpenStep, Enabled, FilterOf;
  }

  lemma NewModuleDiffers(c: Config, s: State, t: nat, h: nat)
    requires Inv(c, s) && LoadsInv(c, s) && t < |s.pcs| && s.pcs[t].LoadModule? && s.objs[c.calls[t].obj].essentials.Image?
    requires h < |s.modules| && forall u, v :: !Coincide(c, u, v)
    ensures s.modules[h] != c.calls[t]
  {
    ImageMeansLoadable(c, s, c.calls[t].obj);
    hide Loadable, RegistryOk, ObjsOk, ThreadsOk, Exclusion, BadHidden;
    assert LoadedBy(c, s, s.modules[h]);
    var u :| 0 <= u < |s.pcs| && c.calls[u] == s.modules[h] && Past(s.pcs[u]);
    assert !Coincide(c, u, t) && !Coincide(c, t, u);
  }

  lemma StillLoadedBy(c: Config, s: State, s': State, t: nat, call: Call)
    requires LoadedBy(c, s, call) && t < |s.pcs| == |s'.pcs| && (Past(s.pcs[t]) ==> Past(s'.pcs[t]))
    requires forall u :: 0 <= u < |s.pcs| && u != t ==> s'.pcs[u] == s.pcs[u]
    ensures LoadedBy(c, s', call)
  {
    var u :| 0 <= u < |s.pcs| && u < |c.calls| && c.calls[u] == call && Past(s.pcs[u]);
    assert Past(s'.pcs[u]);
  }

  lemma StepLoadsInv(c: Config, s: State, s': State, t: nat, choice: Choice)
    requires Inv(c, s) && Step(c, s, s', t, choice) && LoadsInv(c, s) && forall u, v :: !Coincide(c, u, v)
    ensures LoadsInv(c, s')
  {
    StepLoads(c, s, s', t, choice);
    StepMoves(c, s, s', t, choice);
    hide Inv, Step, Coincide, LoadedBy, Past;
    forall h | 0 <= h < |s.modules| && s'.modules != s.modules ensures s.modules[h] != c.calls[t] { NewModuleDiffers(c, s, t, h); }
    forall h | 0 <= h < |s'.modules| ensures LoadedBy(c, s', s'.modules[h]) {
      if h < |s.modules| {
        StillLoadedBy(c, s, s', t, s.modules[h]);
      } else {
        JustLoadedBy(c, s', t);
      }
    }
  }

  lemma StepMoves(c: Config, s: State, s': State, t: nat, choice: Choice)
    requires Step(c, s, s', t, choice)
    ensures Shaped(c, s) && t < |s.pcs| == |s'.pcs| && |s.pcs| == |c.calls|
    ensures forall u :: 0 <= u < |s.pcs| && u != t ==> s'.pcs[u] == s.pcs[u]
  {
    hide Act, Enabled;
  }

  lemma JustLoadedBy(c: Config, s: State, t: nat)
    requires t < |s.pcs| && t < |c.calls| && Past(s.pcs[t])
    ensures LoadedBy(c, s, c.calls[t])
  {
  }

  lemma {:induction false} RunLoadsInv(c: Config, states: seq<State>, movers: seq<nat>, choices: seq<Choice>, i: nat)
    requires Run(c, states, movers, choices) && i < |states| && forall t, u :: !Coincide(c, t, u)
    ensures LoadsInv(c, states[i])
  {
    hide Inv, Step, Coincide;
    if i > 0 {
      RunLoadsInv(c, states, movers, choices, i - 1);
      RunInv(c, states, movers, choices, i - 1);
      StepLoadsInv(c, states[i - 1], states[i], movers[i - 1], choices[i - 1]);
    }
  }

  // ---------------------------------------------------------------- a call on its own

  /** The other threads hold no lock. */
  ghost predicate Quiet(s: State, t: nat) {
    forall v :: 0 <= v < |s.pcs| && v != t ==> s.pcs[v].Start? || s.pcs[v].WantWriter?
  }

  /** A call on its way to load its image, with nothing lost so far. */
  ghost predicate OnTrack(call: Call, info: Info, pc: Pc, obj: Obj, registry: Registry) {
    && call.dev !in obj.funcache && (obj.kernelLoaded ==> obj.essentials.Image?)
    && match pc
       case CheckStatus => !Bad(registry, info.zip, info.entry)
       case Returned(image) => image.Some?
       case SetLoaded => obj.essentials.Image?
       case LoadModule => obj.essentials.Image?
       case GetFunction(h) => true
       case Emplace(h) => false
       case Finished(func) => false
       case Threw => false
       case _ => true
  }

  lemma QuietIsEnabled(c: Config, s: State, t: nat)
    requires Shaped(c, s) && t < |s.pcs| && Quiet(s, t) && !Over(s.pcs[t])
    ensures Enabled(c, s, t)
  {
  }

  lemma OpeningOnTrack(c: Config, call: Call, info: Info, pc: Pc, obj: Obj, e: Effect)
    requires OpenReady(c, call, info, pc, obj, e) && OnTrack(call, info, pc, obj, e.registry) && Loadable(c, info)
    ensures OnTrack(call, info, OpenStep(c, info, pc, e.registry, e, Works).pc, obj, OpenStep(c, info, pc, e.registry, e, Works).registry)
  {
    hide Listed, OpenAt, FilterOf, InnerMap, Unconstructed;
    if info.zip in e.registry { assert InnerOk(c, info.zip, e.registry[info.zip]); }
    assert c.disk(info.zip).Some? by { NoFileNotListed(c, info.zip); }
  }

  lemma NoFileNotListed(c: Config, path: Path)
    ensures Listed(c, path).ok ==> c.disk(path).Some?
  {
  }

  lemma ObjectOnTrack(c: Config, call: Call, info: Info, pc: Pc, obj: Obj, e: Effect)
    requires ObjectReady(c, call, info, pc, obj, e) && OnTrack(call, info, pc, obj, e.registry) && Loadable(c, info)
    requires !pc.GetFunction?
    ensures var e' := ObjectStep(c, call, info, pc, obj, e, Works); OnTrack(call, info, e'.pc, e'.obj, e'.registry)
  {
    hide Listed, OpenAt, FilterOf, InnerMap;
  }

  lemma ActOnTrack(c: Config, s: State, t: nat)
    requires Inv(c, s) && t < |s.pcs| && !s.pcs[t].GetFunction?
    requires var o := c.calls[t].obj; OnTrack(c.calls[t], c.infos[o], s.pcs[t], s.objs[o], s.registry) && Loadable(c, c.infos[o])
    ensures var o, e := c.calls[t].obj, Act(c, s, t, Works); OnTrack(c.calls[t], c.infos[o], e.pc, e.obj, e.registry)
  {
    var call, pc := c.calls[t], s.pcs[t];
    var obj, info := s.objs[call.obj], c.infos[call.obj];
    var e := Effect(pc, obj, s.registry, s.modules, s.leaked);
    assert ThreadAt(c, s, t) && ObjOk(info, c, call.obj, obj, s.modules, s.leaked);
    if pc.FastPath? || pc.Find? { NothingBad(c, s, t); }
    hide ObjectStep, OpenStep, ThreadOk, ObjOk, RegistryOk, Loadable, Bad, Exclusion, BadHidden, OnTrack;
    if Opening(pc) {
      OpeningOnTrack(c, call, info, pc, obj, e);
      assert OpenStep(c, info, pc, s.registry, e, Works).obj == obj by { OpenStepOk(c, call, info, pc, obj, e, Works); }
    } else {
      ObjectOnTrack(c, call, info, pc, obj, e);
    }
  }

  lemma TrackIsNotOver(call: Call, info: Info, pc: Pc, obj: Obj, registry: Registry)
    requires OnTrack(call, info, pc, obj, registry)
    ensures !Over(pc)
  {
  }

  lemma TrackStep(c: Config, s: State, t: nat) returns (s': State)
    requires Inv(c, s) && t < |s.pcs| && Quiet(s, t) && !s.pcs[t].GetFunction?
    requires var o := c.calls[t].obj; OnTrack(c.calls[t], c.infos[o], s.pcs[t], s.objs[o], s.registry) && Loadable(c, c.infos[o])
    ensures Step(c, s, s', t, Works) && |s'.pcs| == |s.pcs| && |s'.objs| == |s.objs|
    ensures forall v :: 0 <= v < |s.pcs| && v != t ==> s'.pcs[v] == s.pcs[v]
    ensures var o := c.calls[t].obj; OnTrack(c.calls[t], c.infos[o], s'.pcs[t], s'.objs[o], s'.registry)
  {
    hide Act, Enabled, Loadable, OnTrack, RegistryOk, ObjsOk, ThreadsOk, Exclusion, BadHidden, Quiet, LeaksLogged;
    TrackIsNotOver(c.calls[t], c.infos[c.calls[t].obj], s.pcs[t], s.objs[c.calls[t].obj], s.registry);
    QuietIsEnabled(c, s, t);
    ActOnTrack(c, s, t);
    var e := Act(c, s, t, Works);
    s' := State(s.objs[c.calls[t].obj := e.obj], e.registry, e.modules, e.leaked, s.pcs[t := e.pc]);
  }

  /** Undisturbed, it gets as far as having loaded its module. */
  lemma {:induction false} LoadsAlone(c: Config, s: State, t: nat) returns (s': State)
    requires Reached(c, s) && Inv(c, s) && t < |s.pcs| && Quiet(s, t)
    requires var o := c.calls[t].obj; OnTrack(c.calls[t], c.infos[o], s.pcs[t], s.objs[o], s.registry) && Loadable(c, c.infos[o])
    ensures Reached(c, s') && Inv(c, s') && |s'.pcs| == |s.pcs| && s'.pcs[t].GetFunction?
    ensures forall v :: 0 <= v < |s.pcs| && v != t ==> s'.pcs[v] == s.pcs[v]
    decreases Measure(c, s, |s.pcs|)
  {
    hide Step, Reached, Inv, Loadable, OnTrack, Measure;
    if s.pcs[t].GetFunction? {
      s' := s;
    } else {
      var next := TrackStep(c, s, t);
      StepInv(c, s, next, t, Works);
      StepReached(c, s, next, t, Works);
      StepsTerminate(c, s, next, t, Works);
      s' := LoadsAlone(c, next, t);
    }
  }

  // ---------------------------------------------------------------- calls that coincide

  /** The first state, and the second caller's two steps up to the writer's lock. */
  lemma SecondCallerWaits(c: Config, u: nat) returns (s: State)
    requires (forall v :: 0 <= v < |c.calls| ==> c.calls[v].obj < |c.infos|) && u < |c.calls|
    ensures Reached(c, s) && Inv(c, s) && |s.pcs| == |c.calls|
    ensures forall v :: 0 <= v < |s.pcs| ==> s.pcs[v] == if v == u then WantWriter else Start
    ensures forall o :: 0 <= o < |s.objs| ==> s.objs[o] == Obj(map[], false, None, NullImage)
  {
    var s0 := State(seq(|c.infos|, _ => Obj(map[], false, None, NullImage)), map[], [], {}, seq(|c.calls|, _ => Start));
    assert Init(c, s0);
    InitInv(c, s0);
    InitReached(c, s0);
    assert s0.objs[c.calls[u].obj := s0.objs[c.calls[u].obj]] == s0.objs;
    var s1 := s0.(pcs := s0.pcs[u := Peek]);
    QuietIsEnabled(c, s0, u);
    hide OpenStep, Enabled, Reached;
    assert Step(c, s0, s1, u, Works);
    StepReached(c, s0, s1, u, Works);
    QuietIsEnabled(c, s1, u);
    s := s1.(pcs := s1.pcs[u := WantWriter]);
    assert Step(c, s1, s, u, Works);
    StepReached(c, s1, s, u, Works);
    ReachedInv(c, s);
  }

  /** From the first state on: one caller loads the module and fails to find its function, and the other, which
      waited for the lock meanwhile, loads it again. */
  lemma CoincidingCallsLoadTwice(c: Config, t: nat, u: nat) returns (s: State)
    requires (forall v :: 0 <= v < |c.calls| ==> c.calls[v].obj < |c.infos|) && Coincide(c, t, u)
    ensures Reached(c, s) && !ModulesDiffer(s)
  {
    var s0 := SecondCallerWaits(c, u);
    hide Reached, Inv, Loadable;
    var s1 := LoadsAlone(c, s0, t);
    LoadedOnce(c, s1, t, u);
    var states := LostModuleIsLoadedAgain(c, s1, t, u);
    StepsReached(c, states, [t, u, u, u, u], [CannotOpen, Works, Works, Works, Works], 5);
    s := states[5];
    assert s.modules[s1.pcs[t].mod] == s.modules[|s1.modules|];
  }

  lemma LoadedOnce(c: Config, s: State, t: nat, u: nat)
    requires Inv(c, s) && t < |s.pcs| && u < |s.pcs| && t != u && s.pcs[t].GetFunction? && Quiet(s, t)
    ensures !Held(c, s, u, CacheReader)
  {
  }

  lemma {:induction false} StepsReached(c: Config, states: seq<State>, movers: seq<nat>, choices: seq<Choice>, i: nat)
    requires Steps(c, states, movers, choices) && i < |states| && Reached(c, states[0])
    ensures Reached(c, states[i])
  {
    hide Step, Reached;
    if i > 0 {
      StepsReached(c, states, movers, choices, i - 1);
      assert Step(c, states[i - 1], states[i - 1 + 1], movers[i - 1], choices[i - 1]);
      StepReached(c, states[i - 1], states[i], movers[i - 1], choices[i - 1]);
    }
  }

  /** Every reachable state has at most one module per object and device exactly when no two calls ask for the
      same function of a loadable kernel. */
  lemma LoadedOnceExactly(c: Config)
    requires forall v :: 0 <= v < |c.calls| ==> c.calls[v].obj < |c.infos|
    ensures (forall s :: Reached(c, s) ==> ModulesDiffer(s)) <==> (forall t, u :: !Coincide(c, t, u))
  {
    if t: nat, u: nat :| Coincide(c, t, u) {
      var s := CoincidingCallsLoadTwice(c, t, u);
    } else {
      forall s | Reached(c, s) ensures ModulesDiffer(s) {
        var states, movers, choices :| Run(c, states, movers, choices) && states[|states| - 1] == s;
        RunLoadsInv(c, states, movers, choices, |states| - 1);
      }
    }
  }
}
