/** How every get_kernel call ends: with the function, with null, or with an exception, and exactly when.
    The outcome follows from the archive on disk and from which system calls failed in the run. */
module CallOutcomes {
  import opened Options
  import opened Bytes
  import opened FlatZip
  import opened Aks2
  import opened KernelStore
  import opened KernelCache
  import opened ModuleLoads

  // ---------------------------------------------------------------- what can go wrong

  /** A step from pc that fails to open its archive, to read its directory, or to construct its image. */
  predicate FailsNow(info: Info, pc: Pc, registry: Registry, choice: Choice) {
    choice != Works && ((pc.Populate? && info.zip !in registry) || pc.Staging? || pc.Construct?)
  }

  predicate OpeningFails(c: Config, s: State, t: nat, choice: Choice)
    requires Shaped(c, s) && t < |s.pcs|
  {
    FailsNow(c.infos[c.calls[t].obj], s.pcs[t], s.registry, choice)
  }

  /** In this step thread t, which has an image, fails to load its module or to find its function. */
  predicate LoadingFails(c: Config, s: State, t: nat, choice: Choice)
    requires Shaped(c, s) && t < |s.pcs|
  {
    choice != Works && ((s.pcs[t].LoadModule? && s.objs[c.calls[t].obj].essentials.Image?) || s.pcs[t].GetFunction?)
  }

  ghost predicate OpeningFailsAt(c: Config, states: seq<State>, movers: seq<nat>, choices: seq<Choice>, o: nat, i: nat)
    requires i < |movers| < |states| && i < |choices|
  {
    && Shaped(c, states[i]) && movers[i] < |states[i].pcs| && c.calls[movers[i]].obj == o
    && OpeningFails(c, states[i], movers[i], choices[i])
  }

  ghost predicate LoadingFailsAt(c: Config, states: seq<State>, movers: seq<nat>, choices: seq<Choice>, t: nat, i: nat)
    requires i < |movers| < |states| && i < |choices|
  {
    Shaped(c, states[i]) && movers[i] == t && t < |states[i].pcs| && LoadingFails(c, states[i], t, choices[i])
  }

  /** Some caller of the object failed while opening, in the first n steps. */
  ghost predicate OpenFailed(c: Config, states: seq<State>, movers: seq<nat>, choices: seq<Choice>, o: nat, n: nat)
    requires n <= |movers| == |choices| && |states| == |movers| + 1
  {
    exists i :: 0 <= i < n && OpeningFailsAt(c, states, movers, choices, o, i)
  }

  /** The call itself failed while loading, in the first n steps. */
  ghost predicate LoadFailed(c: Config, states: seq<State>, movers: seq<nat>, choices: seq<Choice>, t: nat, n: nat)
    requires n <= |movers| == |choices| && |states| == |movers| + 1
  {
    exists i :: 0 <= i < n && LoadingFailsAt(c, states, movers, choices, t, i)
  }

  // ---------------------------------------------------------------- what every step keeps

  /** The object is loaded with its image, unless some caller failed while opening. */
  predicate ObjOut(obj: Obj, failed: bool) { obj.kernelLoaded ==> (obj.essentials.Image? <==> !failed) }

  ghost predicate PcOut(info: Info, pc: Pc, obj: Obj, registry: Registry, failed: bool) {
    match pc
    case CheckStatus => Bad(registry, info.zip, info.entry) <==> failed
    case Returned(image) => image.None? <==> failed
    case Filter => !failed
    case SetLoaded => obj.essentials.Image? <==> !failed
    case Threw => obj.kernelLoaded && obj.essentials.Image?
    case _ => Holds(pc, CacheWriter) && failed ==> obj.kernelLoaded
  }

  ghost predicate ThreadOut(c: Config, s: State, u: nat, failed: bool)
    requires Shaped(c, s) && u < |s.pcs|
  {
    PcOut(c.infos[c.calls[u].obj], s.pcs[u], s.objs[c.calls[u].obj], s.registry, failed)
  }

  predicate WritesFor(c: Config, s: State, u: nat, o: nat)
    requires Shaped(c, s) && u < |s.pcs|
  {
    c.calls[u].obj == o && Holds(s.pcs[u], CacheWriter)
  }

  ghost predicate OutInv(c: Config, s: State, o: nat, failed: bool)
    requires Shaped(c, s) && o < |s.objs|
  {
    && ObjOut(s.objs[o], failed)
    && (forall u :: 0 <= u < |s.pcs| && c.calls[u].obj == o ==> ThreadOut(c, s, u, failed))
    && (failed && !s.objs[o].kernelLoaded ==> exists u :: 0 <= u < |s.pcs| && WritesFor(c, s, u, o))
  }

  /** Inside open nothing but a failure gives up on an image that the archive holds. */
  lemma OpeningOut(c: Config, call: Call, info: Info, pc: Pc, obj: Obj, e: Effect, choice: Choice, failed: bool)
    requires OpenReady(c, call, info, pc, obj, e) && Loadable(c, info) && ObjOut(obj, failed) && PcOut(info, pc, obj, e.registry, failed)
    ensures var e' := OpenStep(c, info, pc, e.registry, e, choice);
      var failed' := failed || FailsNow(info, pc, e.registry, choice);
      && ObjOut(obj, failed') && PcOut(info, e'.pc, obj, e'.registry, failed') && Holds(e'.pc, CacheWriter)
  {
    hide OpenReady, Loadable, OpenStep, PcOut;
    if pc.Staging? {
      StagingOut(c, call, info, pc, obj, e, choice, failed);
    } else if pc.Construct? {
      ConstructOut(c, call, info, pc, obj, e, choice, failed);
    } else if pc.CheckStatus? {
      CheckOut(c, call, info, pc, obj, e, choice, failed);
    } else if pc.FastPath? || pc.Find? {
      LookupOut(c, call, info, pc, obj, e, choice, failed);
    } else {
      ReadingOut(c, call, info, pc, obj, e, choice, failed);
    }
  }

  lemma StagingOut(c: Config, call: Call, info: Info, pc: Pc, obj: Obj, e: Effect, choice: Choice, failed: bool)
    requires OpenReady(c, call, info, pc, obj, e) && Loadable(c, info) && ObjOut(obj, failed) && PcOut(info, pc, obj, e.registry, failed)
    requires pc.Staging?
    ensures var e' := OpenStep(c, info, pc, e.registry, e, choice);
      var failed' := failed || FailsNow(info, pc, e.registry, choice);
      && ObjOut(obj, failed') && PcOut(info, e'.pc, obj, e'.registry, failed') && Holds(e'.pc, CacheWriter)
  {
    hide Listed, OpenAt, FilterOf, InnerMap, Unconstructed, EssentialsSet, RightImage, WithPtr, RegistryOk, InnerOk;
  }

  lemma ConstructOut(c: Config, call: Call, info: Info, pc: Pc, obj: Obj, e: Effect, choice: Choice, failed: bool)
    requires OpenReady(c, call, info, pc, obj, e) && Loadable(c, info) && ObjOut(obj, failed) && PcOut(info, pc, obj, e.registry, failed)
    requires pc.Construct?
    ensures var e' := OpenStep(c, info, pc, e.registry, e, choice);
      var failed' := failed || FailsNow(info, pc, e.registry, choice);
      && ObjOut(obj, failed') && PcOut(info, e'.pc, obj, e'.registry, failed') && Holds(e'.pc, CacheWriter)
  {
    hide Listed, OpenAt, FilterOf, InnerMap, Unconstructed, EssentialsSet, RightImage, RegistryOk, WholeDirectory;
    DirectoryVisit(c, info, e.registry);
  }

  lemma CheckOut(c: Config, call: Call, info: Info, pc: Pc, obj: Obj, e: Effect, choice: Choice, failed: bool)
    requires OpenReady(c, call, info, pc, obj, e) && Loadable(c, info) && ObjOut(obj, failed) && PcOut(info, pc, obj, e.registry, failed)
    requires pc.CheckStatus?
    ensures var e' := OpenStep(c, info, pc, e.registry, e, choice);
      var failed' := failed || FailsNow(info, pc, e.registry, choice);
      && ObjOut(obj, failed') && PcOut(info, e'.pc, obj, e'.registry, failed') && Holds(e'.pc, CacheWriter)
  {
    hide Listed, OpenAt, FilterOf, InnerMap, Unconstructed, EssentialsSet, RightImage, RegistryOk, InnerOk, WithPtr;
  }

  lemma DirectoryVisit(c: Config, info: Info, registry: Registry)
    requires RegistryOk(c, registry) && info.zip in registry && info.entry in registry[info.zip] && Loadable(c, info)
    ensures OpenAt(c, info.zip, registry[info.zip][info.entry].visit).status == Success
  {
    hide Listed, OpenAt, FilterOf, InnerMap;
    assert InnerOk(c, info.zip, registry[info.zip]);
  }

  lemma LookupOut(c: Config, call: Call, info: Info, pc: Pc, obj: Obj, e: Effect, choice: Choice, failed: bool)
    requires OpenReady(c, call, info, pc, obj, e) && Loadable(c, info) && ObjOut(obj, failed) && PcOut(info, pc, obj, e.registry, failed)
    requires pc.FastPath? || pc.Find?
    ensures var e' := OpenStep(c, info, pc, e.registry, e, choice);
      var failed' := failed || FailsNow(info, pc, e.registry, choice);
      && ObjOut(obj, failed') && PcOut(info, e'.pc, obj, e'.registry, failed') && Holds(e'.pc, CacheWriter)
  {
    hide Listed, OpenAt, FilterOf, InnerMap, Unconstructed, WithPtr, EssentialsSet, RightImage;
    if info.zip in e.registry { assert InnerOk(c, info.zip, e.registry[info.zip]); }
  }

  lemma ReadingOut(c: Config, call: Call, info: Info, pc: Pc, obj: Obj, e: Effect, choice: Choice, failed: bool)
    requires OpenReady(c, call, info, pc, obj, e) && Loadable(c, info) && ObjOut(obj, failed) && PcOut(info, pc, obj, e.registry, failed)
    requires !pc.Staging? && !pc.Construct? && !pc.CheckStatus? && !pc.FastPath? && !pc.Find?
    ensures var e' := OpenStep(c, info, pc, e.registry, e, choice);
      var failed' := failed || FailsNow(info, pc, e.registry, choice);
      && ObjOut(obj, failed') && PcOut(info, e'.pc, obj, e'.registry, failed') && Holds(e'.pc, CacheWriter)
  {
    hide Listed, OpenAt, FilterOf, InnerMap, Unconstructed, WithPtr, EssentialsSet, RightImage;
    NoFileNotListed(c, info.zip);
  }

  lemma ObjectOut(c: Config, call: Call, info: Info, pc: Pc, obj: Obj, e: Effect, choice: Choice, failed: bool)
    requires ObjectReady(c, call, info, pc, obj, e) && Loadable(c, info) && ObjOut(obj, failed) && PcOut(info, pc, obj, e.registry, failed)
    requires pc.WantWriter? && failed ==> obj.kernelLoaded
    ensures var e' := ObjectStep(c, call, info, pc, obj, e, choice);
      && ObjOut(e'.obj, failed) && PcOut(info, e'.pc, e'.obj, e'.registry, failed)
      && (Holds(pc, CacheWriter) && !Holds(e'.pc, CacheWriter) ==> e'.obj.kernelLoaded)
  {
    hide Listed, OpenAt, FilterOf, InnerMap;
  }

  lemma ActOut(c: Config, s: State, t: nat, choice: Choice, failed: bool)
    requires Inv(c, s) && t < |s.pcs| && Enabled(c, s, t)
    requires var o := c.calls[t].obj; Loadable(c, c.infos[o]) && OutInv(c, s, o, failed)
    ensures var o, e, failed' := c.calls[t].obj, Act(c, s, t, choice), failed || OpeningFails(c, s, t, choice);
      && ObjOut(e.obj, failed') && PcOut(c.infos[o], e.pc, e.obj, e.registry, failed')
      && (Holds(s.pcs[t], CacheWriter) && !Holds(e.pc, CacheWriter) ==> e.obj.kernelLoaded)
      && (failed' != failed ==> Holds(e.pc, CacheWriter))
  {
    var call, pc := c.calls[t], s.pcs[t];
    var obj, info := s.objs[call.obj], c.infos[call.obj];
    var e := Effect(pc, obj, s.registry, s.modules, s.leaked);
    assert ThreadAt(c, s, t) && ObjOk(info, c, call.obj, obj, s.modules, s.leaked) && ThreadOut(c, s, t, failed);
    if pc.FastPath? || pc.Find? { NothingBad(c, s, t); }
    if pc.WantWriter? { assert !exists u :: 0 <= u < |s.pcs| && WritesFor(c, s, u, call.obj) by { NobodyWrites(c, s, t); } }
    hide ObjectStep, OpenStep, ThreadOk, ObjOk, RegistryOk, Loadable, Bad, Exclusion, BadHidden, PcOut, ObjOut, Enabled;
    if Opening(pc) {
      OpeningOut(c, call, info, pc, obj, e, choice, failed);
      OpenStepOk(c, call, info, pc, obj, e, choice);
    } else {
      ObjectOut(c, call, info, pc, obj, e, choice, failed);
    }
  }

  lemma NobodyWrites(c: Config, s: State, t: nat)
    requires Shaped(c, s) && Enabled(c, s, t) && s.pcs[t].WantWriter?
    ensures forall u :: 0 <= u < |s.pcs| ==> !WritesFor(c, s, u, c.calls[t].obj)
  {
  }

  /** Another caller of the object keeps what it knows. */
  lemma OtherOut(info: Info, pc: Pc, obj: Obj, obj': Obj, r: Registry, r': Registry, failed: bool, failed': bool, moving: Pc)
    requires PcOut(info, pc, obj, r, failed) && ObjKept(obj, obj') && Compatible(true, moving, pc)
    requires obj' != obj || r' != r || failed' != failed ==> Holds(moving, CacheWriter)
    ensures PcOut(info, pc, obj', r', failed')
  {
    hide Bad;
  }

  /** A caller of this object when some other object's caller moves. */
  lemma FarOut(info: Info, pc: Pc, obj: Obj, r: Registry, r': Registry, failed: bool, moving: Pc, other: bool)
    requires PcOut(info, pc, obj, r, failed) && Compatible(other, moving, pc)
    requires r' != r ==> Holds(moving, RegistryWriter)
    ensures PcOut(info, pc, obj, r', failed)
  {
    hide Bad;
  }

  lemma StepOut(c: Config, s: State, s': State, t: nat, choice: Choice, o: nat, failed: bool)
    requires Inv(c, s) && Step(c, s, s', t, choice) && o < |s.objs| && Loadable(c, c.infos[o]) && OutInv(c, s, o, failed)
    ensures Shaped(c, s') && OutInv(c, s', o, failed || (c.calls[t].obj == o && OpeningFails(c, s, t, choice)))
  {
    StepActsOk(c, s, t, choice);
    if c.calls[t].obj == o { OwnStepOut(c, s, s', t, choice, failed); } else { FarStepOut(c, s, s', t, choice, o, failed); }
  }

  lemma OwnStepOut(c: Config, s: State, s': State, t: nat, choice: Choice, failed: bool)
    requires Inv(c, s) && Step(c, s, s', t, choice) && ActOk(c, s, t, Act(c, s, t, choice))
    requires Loadable(c, c.infos[c.calls[t].obj]) && OutInv(c, s, c.calls[t].obj, failed)
    ensures Shaped(c, s') && OutInv(c, s', c.calls[t].obj, failed || OpeningFails(c, s, t, choice))
  {
    ActOut(c, s, t, choice, failed);
    hide Act, ObjOk, ThreadOk, RegistryOk, Bad, Enabled, RegistryKept, ObjKept, LogGrows, BadMoves, BadHidden, Compatible, Loadable, PcOut, FailsNow;
    var o, failed' := c.calls[t].obj, failed || OpeningFails(c, s, t, choice);
    OpeningHolds(c.infos[o], s.pcs[t], s.registry, choice);
    forall u | 0 <= u < |s.pcs| && c.calls[u].obj == o ensures ThreadOut(c, s', u, failed') {
      if u != t {
        assert ThreadOut(c, s, u, failed) && Compatible(c.calls[t].obj == c.calls[u].obj, s.pcs[t], s.pcs[u]);
        OtherOut(c.infos[o], s.pcs[u], s.objs[o], s'.objs[o], s.registry, s'.registry, failed, failed', s.pcs[t]);
      }
    }
    if !Holds(s.pcs[t], CacheWriter) { MoverSeesNoWriter(c, s, t); }
    if Holds(s'.pcs[t], CacheWriter) { assert WritesFor(c, s', t, o); }
    StillLoaded(s.objs[o], s'.objs[o]);
  }

  lemma StillLoaded(obj: Obj, obj': Obj)
    requires ObjKept(obj, obj')
    ensures obj.kernelLoaded ==> obj'.kernelLoaded
  {
  }

  lemma MoverSeesNoWriter(c: Config, s: State, t: nat)
    requires Shaped(c, s) && Exclusion(c, s) && Enabled(c, s, t) && !Holds(s.pcs[t], CacheWriter)
    ensures forall u :: 0 <= u < |s.pcs| ==> !WritesFor(c, s, u, c.calls[t].obj)
  {
    forall u | 0 <= u < |s.pcs| ensures !WritesFor(c, s, u, c.calls[t].obj) {
      if u != t { assert Compatible(c.calls[u].obj == c.calls[t].obj, s.pcs[u], s.pcs[t]); }
    }
  }

  lemma OpeningHolds(info: Info, pc: Pc, registry: Registry, choice: Choice)
    ensures FailsNow(info, pc, registry, choice) || Holds(pc, RegistryWriter) ==> Holds(pc, CacheWriter)
  {
  }

  lemma FarStepOut(c: Config, s: State, s': State, t: nat, choice: Choice, o: nat, failed: bool)
    requires Inv(c, s) && Step(c, s, s', t, choice) && ActOk(c, s, t, Act(c, s, t, choice))
    requires o < |s.objs| && c.calls[t].obj != o && OutInv(c, s, o, failed)
    ensures Shaped(c, s') && OutInv(c, s', o, failed)
  {
    hide Act, ObjOk, ThreadOk, RegistryOk, Bad, Enabled, RegistryKept, ObjKept, LogGrows, BadMoves, BadHidden, Compatible, PcOut;
    forall u | 0 <= u < |s.pcs| && c.calls[u].obj == o ensures ThreadOut(c, s', u, failed) {
      assert ThreadOut(c, s, u, failed) && Compatible(c.calls[t].obj == c.calls[u].obj, s.pcs[t], s.pcs[u]);
      FarOut(c.infos[o], s.pcs[u], s.objs[o], s.registry, s'.registry, failed, s.pcs[t], false);
    }
    if failed && !s'.objs[o].kernelLoaded {
      var u :| 0 <= u < |s.pcs| && WritesFor(c, s, u, o);
      assert WritesFor(c, s', u, o);
    }
  }

  // ---------------------------------------------------------------- runs

  lemma InitOut(c: Config, s: State, o: nat)
    requires Init(c, s) && o < |s.objs|
    ensures Shaped(c, s) && OutInv(c, s, o, false)
  {
  }

  lemma {:induction false} RunOut(c: Config, states: seq<State>, movers: seq<nat>, choices: seq<Choice>, o: nat, n: nat)
    requires Run(c, states, movers, choices) && n <= |movers| && o < |c.infos| && Loadable(c, c.infos[o])
    ensures Shaped(c, states[n]) && OutInv(c, states[n], o, OpenFailed(c, states, movers, choices, o, n))
  {
    hide Inv, Step, Loadable, OutInv, OpeningFails;
    RunInv(c, states, movers, choices, n);
    if n == 0 {
      InitOut(c, states[0], o);
    } else {
      var i := n - 1;
      RunOut(c, states, movers, choices, o, i);
      RunInv(c, states, movers, choices, i);
      var s, s' := states[i], states[i + 1];
      StepMover(c, s, s', movers[i], choices[i]);
      StepOut(c, s, s', movers[i], choices[i], o, OpenFailed(c, states, movers, choices, o, i));
      FailedSoFar(c, states, movers, choices, o, i);
    }
  }

  lemma StepMover(c: Config, s: State, s': State, t: nat, choice: Choice)
    requires Step(c, s, s', t, choice)
    ensures Shaped(c, s) && t < |s.pcs| && Enabled(c, s, t)
    ensures forall u :: 0 <= u < |s.pcs| && u != t ==> u < |s'.pcs| && s'.pcs[u] == s.pcs[u]
  {
    hide Act, Enabled;
  }

  lemma FailedSoFar(c: Config, states: seq<State>, movers: seq<nat>, choices: seq<Choice>, o: nat, i: nat)
    requires |states| == |movers| + 1 == |choices| + 1 && i < |movers|
    ensures OpenFailed(c, states, movers, choices, o, i + 1) <==>
      OpenFailed(c, states, movers, choices, o, i) || OpeningFailsAt(c, states, movers, choices, o, i)
  {
    hide OpeningFailsAt;
  }

  /** A call throws in exactly the step in which its loading fails. */
  lemma StepThrows(c: Config, s: State, s': State, t: nat, choice: Choice)
    requires Step(c, s, s', t, choice)
    ensures Shaped(c, s) && t < |s.pcs| == |s'.pcs| && !Over(s.pcs[t]) && (s'.pcs[t].Threw? <==> LoadingFails(c, s, t, choice))
  {
    hide FilterOf, Listed, OpenAt, Unconstructed, WithPtr, Held;
  }

  lemma {:induction false} RunThrows(c: Config, states: seq<State>, movers: seq<nat>, choices: seq<Choice>, t: nat, n: nat)
    requires Run(c, states, movers, choices) && n <= |movers| && t < |c.calls|
    ensures |states[n].pcs| == |c.calls| && (states[n].pcs[t].Threw? <==> LoadFailed(c, states, movers, choices, t, n))
  {
    hide Inv, Step, LoadingFails;
    if n > 0 {
      var i := n - 1;
      RunThrows(c, states, movers, choices, t, i);
      StepThrows(c, states[i], states[i + 1], movers[i], choices[i]);
      StepMover(c, states[i], states[i + 1], movers[i], choices[i]);
      LoadFailedSoFar(c, states, movers, choices, t, i);
      OverStays(c, states[i], t);
    }
  }

  lemma OverStays(c: Config, s: State, t: nat)
    requires Shaped(c, s) && t < |s.pcs|
    ensures Over(s.pcs[t]) ==> !Enabled(c, s, t)
  {
  }

  lemma LoadFailedSoFar(c: Config, states: seq<State>, movers: seq<nat>, choices: seq<Choice>, t: nat, i: nat)
    requires |states| == |movers| + 1 == |choices| + 1 && i < |movers|
    ensures LoadFailed(c, states, movers, choices, t, i + 1) <==>
      LoadFailed(c, states, movers, choices, t, i) || LoadingFailsAt(c, states, movers, choices, t, i)
  {
    hide LoadingFailsAt;
  }

  // ---------------------------------------------------------------- how a call ends

  predicate EndsWithFunction(pc: Pc) { pc.Finished? && pc.func.Some? }

  /** In every run, a call that is over returned null if the archive has no image for it or a caller of the same
      object failed while opening, threw if it got past that and its own loading failed, and returned a function
      in all other cases. */
  lemma CallOutcome(c: Config, states: seq<State>, movers: seq<nat>, choices: seq<Choice>, t: nat, n: nat)
    requires Run(c, states, movers, choices) && n <= |movers| && t < |c.calls|
    ensures |states[n].pcs| == |c.calls| && c.calls[t].obj < |c.infos|
    ensures var pc, o := states[n].pcs[t], c.calls[t].obj;
      var hasImage := Loadable(c, c.infos[o]) && !OpenFailed(c, states, movers, choices, o, n);
      Over(pc) ==>
        && (pc == Finished(None) <==> !hasImage)
        && (pc.Threw? <==> hasImage && LoadFailed(c, states, movers, choices, t, n))
        && (EndsWithFunction(pc) <==> hasImage && !LoadFailed(c, states, movers, choices, t, n))
  {
    hide Init, Step, OpenFailed, LoadFailed, Loadable;
    RunInv(c, states, movers, choices, n);
    RunThrows(c, states, movers, choices, t, n);
    var s, o := states[n], c.calls[t].obj;
    if Over(s.pcs[t]) {
      if Loadable(c, c.infos[o]) {
        RunOut(c, states, movers, choices, o, n);
        OverWithImage(c, s, t, OpenFailed(c, states, movers, choices, o, n));
      } else {
        RunHadImage(c, states, movers, choices, t, n);
        OverWithoutImage(c, s, t);
      }
    }
  }

  lemma OverWithImage(c: Config, s: State, t: nat, failed: bool)
    requires Inv(c, s) && t < |s.pcs| && Over(s.pcs[t]) && OutInv(c, s, c.calls[t].obj, failed)
    ensures s.pcs[t] == Finished(None) <==> failed
  {
    hide RegistryOk, Exclusion, BadHidden, RightImage, EssentialsSet, LeaksLogged;
    var o := c.calls[t].obj;
    assert ThreadAt(c, s, t) && ObjOk(c.infos[o], c, o, s.objs[o], s.modules, s.leaked) && ThreadOut(c, s, t, failed);
  }

  /** A call that threw or has a function once saw an image. */
  lemma OverWithoutImage(c: Config, s: State, t: nat)
    requires Inv(c, s) && t < |s.pcs| && Over(s.pcs[t]) && !Loadable(c, c.infos[c.calls[t].obj])
    requires s.pcs[t].Threw? ==> s.objs[c.calls[t].obj].essentials.Image?
    ensures s.pcs[t] == Finished(None)
  {
    var o := c.calls[t].obj;
    if s.objs[o].essentials.Image? { ImageMeansLoadable(c, s, o); }
    hide RegistryOk, Exclusion, BadHidden, RightImage, EssentialsSet, LeaksLogged, Loadable;
    assert ThreadAt(c, s, t) && ObjOk(c.infos[o], c, o, s.objs[o], s.modules, s.leaked);
  }

  lemma {:induction false} RunHadImage(c: Config, states: seq<State>, movers: seq<nat>, choices: seq<Choice>, t: nat, n: nat)
    requires Run(c, states, movers, choices) && n <= |movers| && t < |c.calls|
    ensures Shaped(c, states[n])
    ensures states[n].pcs[t].Threw? ==> states[n].objs[c.calls[t].obj].kernelLoaded && states[n].objs[c.calls[t].obj].essentials.Image?
  {
    hide Inv, Step;
    RunInv(c, states, movers, choices, n);
    if n > 0 {
      var i := n - 1;
      RunHadImage(c, states, movers, choices, t, i);
      RunInv(c, states, movers, choices, i);
      StepMover(c, states[i], states[i + 1], movers[i], choices[i]);
      StepInv(c, states[i], states[i + 1], movers[i], choices[i]);
      StepHadImage(c, states[i], states[i + 1], movers[i], choices[i], t);
    }
  }

  lemma StepHadImage(c: Config, s: State, s': State, mover: nat, choice: Choice, t: nat)
    requires Inv(c, s) && Step(c, s, s', mover, choice) && Shaped(c, s') && mover < |s.pcs| && Kept(c, s, s', mover) && t < |s.pcs|
    requires s.pcs[t].Threw? ==> s.objs[c.calls[t].obj].kernelLoaded && s.objs[c.calls[t].obj].essentials.Image?
    ensures s'.pcs[t].Threw? ==> s'.objs[c.calls[t].obj].kernelLoaded && s'.objs[c.calls[t].obj].essentials.Image?
  {
    var o := c.calls[t].obj;
    StepThrows(c, s, s', mover, choice);
    StepMover(c, s, s', mover, choice);
    hide RegistryOk, Exclusion, BadHidden, RightImage, EssentialsSet, LeaksLogged, Act, Enabled, RegistryKept;
    assert ThreadAt(c, s, t) && ObjKept(s.objs[o], s'.objs[o]);
  }

  /** If nothing fails for any caller of the object, every call for an image the archive holds returns a function. */
  lemma FunctionIfNothingFails(c: Config, states: seq<State>, movers: seq<nat>, choices: seq<Choice>, t: nat, n: nat)
    requires Run(c, states, movers, choices) && n <= |movers| && t < |c.calls| && |states[n].pcs| == |c.calls|
    requires c.calls[t].obj < |c.infos| && Loadable(c, c.infos[c.calls[t].obj])
    requires forall i :: 0 <= i < n && movers[i] < |c.calls| && c.calls[movers[i]].obj == c.calls[t].obj ==> choices[i] == Works
    ensures Over(states[n].pcs[t]) ==> EndsWithFunction(states[n].pcs[t])
  {
    hide Init, Step, Loadable;
    CallOutcome(c, states, movers, choices, t, n);
  }

  /** A call for which nothing fails never throws, whatever happens to others. */
  lemma NeverThrowsByItself(c: Config, states: seq<State>, movers: seq<nat>, choices: seq<Choice>, t: nat, n: nat)
    requires Run(c, states, movers, choices) && n <= |movers| && t < |c.calls|
    requires forall i :: 0 <= i < n && movers[i] == t ==> choices[i] == Works
    ensures |states[n].pcs| == |c.calls| && !states[n].pcs[t].Threw?
  {
    hide Init, Step;
    RunThrows(c, states, movers, choices, t, n);
  }

  // ---------------------------------------------------------------- every run can be completed

  datatype Trace = Trace(states: seq<State>, movers: seq<nat>, choices: seq<Choice>)

  ghost predicate IsRun(c: Config, r: Trace) { Run(c, r.states, r.movers, r.choices) }

  function Last(r: Trace): State
    requires |r.states| > 0
  {
    r.states[|r.states| - 1]
  }

  /** r' goes on from r, and every step it adds is one of thread t in which everything works. */
  ghost predicate Continues(r: Trace, r': Trace, mayMove: nat -> bool) {
    && r.states <= r'.states && r.movers <= r'.movers && r.choices <= r'.choices && |r'.movers| == |r'.choices|
    && forall i :: |r.movers| <= i < |r'.movers| ==> mayMove(r'.movers[i]) && r'.choices[i] == Works
  }

  lemma ExtendTrace(c: Config, r: Trace, t: nat, choice: Choice) returns (r': Trace)
    requires IsRun(c, r) && |r.states| > 0 && Shaped(c, Last(r)) && t < |Last(r).pcs| && Enabled(c, Last(r), t)
    ensures IsRun(c, r') && |r'.states| == |r.states| + 1 && r'.movers == r.movers + [t] && r'.choices == r.choices + [choice]
    ensures r.states <= r'.states && Step(c, Last(r), Last(r'), t, choice)
  {
    var s := Last(r);
    var e := Act(c, s, t, choice);
    var s' := State(s.objs[c.calls[t].obj := e.obj], e.registry, e.modules, e.leaked, s.pcs[t := e.pc]);
    assert Step(c, s, s', t, choice);
    hide Step, Init;
    r' := Trace(r.states + [s'], r.movers + [t], r.choices + [choice]);
    forall i | 0 <= i < |r'.movers| ensures Step(c, r'.states[i], r'.states[i + 1], r'.movers[i], r'.choices[i]) {
      if i < |r.movers| { assert Step(c, r.states[i], r.states[i + 1], r.movers[i], r.choices[i]); }
    }
    assert r'.states[0] == r.states[0];
  }

  lemma LastInv(c: Config, r: Trace)
    requires IsRun(c, r)
    ensures |r.states| > 0 && |r.states| == |r.movers| + 1 == |r.choices| + 1 && Inv(c, Last(r)) && |Last(r).pcs| == |c.calls|
  {
    hide Init, Step, Inv;
    RunInv(c, r.states, r.movers, r.choices, |r.states| - 1);
    RunShaped(c, Last(r));
  }

  lemma RunShaped(c: Config, s: State)
    requires Inv(c, s)
    ensures Shaped(c, s)
  {
  }

  ghost function StepsToGo(c: Config, r: Trace): nat {
    if |r.states| > 0 && Shaped(c, Last(r)) then Measure(c, Last(r), |Last(r).pcs|) else 0
  }

  /** Every call of every run can be brought to its end. */
  lemma {:induction false} EveryRunCompletes(c: Config, r: Trace) returns (r': Trace)
    requires IsRun(c, r)
    ensures IsRun(c, r') && Continues(r, r', t => true) && |r'.states| > 0 && forall t :: 0 <= t < |Last(r').pcs| ==> Over(Last(r').pcs[t])
    decreases StepsToGo(c, r)
  {
    hide IsRun, Inv, Step, Enabled, Measure;
    LastInv(c, r);
    if t :| 0 <= t < |Last(r).pcs| && !Over(Last(r).pcs[t]) {
      var mover := SomeoneCanMove(c, Last(r), t);
      RunShaped(c, Last(r));
      var next := ExtendTrace(c, r, mover, Works);
      StepsTerminate(c, Last(r), Last(next), mover, Works);
      LastInv(c, next);
      r' := EveryRunCompletes(c, next);
    } else {
      r' := r;
    }
  }

  /** The other callers hold no lock. */
  ghost predicate Undisturbed(s: State, t: nat) {
    forall v :: 0 <= v < |s.pcs| && v != t ==> s.pcs[v].Start? || Over(s.pcs[v])
  }

  lemma UndisturbedIsEnabled(c: Config, s: State, t: nat)
    requires Shaped(c, s) && t < |s.pcs| && Undisturbed(s, t) && !Over(s.pcs[t])
    ensures Enabled(c, s, t)
  {
  }

  /** Undisturbed, a call runs to its end. */
  lemma {:induction false} EndsAlone(c: Config, r: Trace, t: nat) returns (r': Trace)
    requires IsRun(c, r) && t < |c.calls| && |r.states| > 0 && Undisturbed(Last(r), t)
    ensures IsRun(c, r') && Continues(r, r', v => v == t) && |r'.states| > 0 && |Last(r').pcs| == |c.calls| && Over(Last(r').pcs[t])
    ensures |Last(r).pcs| == |c.calls| && forall v :: 0 <= v < |c.calls| && v != t ==> Last(r').pcs[v] == Last(r).pcs[v]
    decreases StepsToGo(c, r)
  {
    hide IsRun, Inv, Step, Enabled, Measure;
    LastInv(c, r);
    if Over(Last(r).pcs[t]) {
      r' := r;
    } else {
      RunShaped(c, Last(r));
      UndisturbedIsEnabled(c, Last(r), t);
      var next := ExtendTrace(c, r, t, Works);
      StepMover(c, Last(r), Last(next), t, Works);
      StepsTerminate(c, Last(r), Last(next), t, Works);
      LastInv(c, next);
      r' := EndsAlone(c, next, t);
    }
  }

  // ---------------------------------------------------------------- one caller's failure is everybody's

  /** On the way to reading the archive, with nothing cached yet. */
  predicate Early(pc: Pc) {
    pc.Start? || pc.Peek? || pc.WantWriter? || pc.Recheck? || pc.CheckLoaded? || pc.WantPacked? || pc.CheckAgain?
    || pc.WantReader? || pc.FastPath? || pc.WantRegistry? || pc.Populate?
  }

  predicate Untouched(c: Config, s: State, u: nat)
    requires Shaped(c, s) && u < |s.pcs|
  {
    s.registry == map[] && s.objs[c.calls[u].obj] == Obj(map[], false, None, NullImage) && Early(s.pcs[u])
  }

  lemma EarlyStep(c: Config, s: State, s': State, u: nat)
    requires Step(c, s, s', u, Works) && Untouched(c, s, u) && !s.pcs[u].Populate?
    ensures Shaped(c, s') && Untouched(c, s', u)
  {
    hide Enabled, FilterOf, Listed, OpenAt, Unconstructed, WithPtr;
  }

  lemma {:induction false} ReachesPopulate(c: Config, r: Trace, u: nat) returns (r': Trace)
    requires IsRun(c, r) && u < |c.calls| && |r.states| > 0 && Undisturbed(Last(r), u)
    requires Shaped(c, Last(r)) && Untouched(c, Last(r), u)
    ensures IsRun(c, r') && Continues(r, r', v => v == u) && |r'.states| > 0 && Shaped(c, Last(r'))
    ensures Last(r').pcs[u].Populate? && Last(r').registry == map[] && Undisturbed(Last(r'), u)
    ensures forall v :: 0 <= v < |c.calls| && v != u ==> Last(r').pcs[v] == Last(r).pcs[v]
    decreases StepsToGo(c, r)
  {
    hide IsRun, Inv, Step, Enabled, Measure;
    LastInv(c, r);
    if Last(r).pcs[u].Populate? {
      r' := r;
    } else {
      UndisturbedIsEnabled(c, Last(r), u);
      var next := ExtendTrace(c, r, u, Works);
      StepMover(c, Last(r), Last(next), u, Works);
      StepsTerminate(c, Last(r), Last(next), u, Works);
      LastInv(c, next);
      EarlyStep(c, Last(r), Last(next), u);
      r' := ReachesPopulate(c, next, u);
    }
  }

  /** For any two callers of an object whose image the archive holds there is a run in which nothing ever fails
      for one of them, and it returns null, because opening failed once for the other. */
  lemma OneFailureIsEverybodys(c: Config, t: nat, u: nat) returns (r: Trace)
    requires (forall v :: 0 <= v < |c.calls| ==> c.calls[v].obj < |c.infos|) && t < |c.calls| && u < |c.calls| && t != u
    requires c.calls[t].obj == c.calls[u].obj && Loadable(c, c.infos[c.calls[t].obj])
    ensures IsRun(c, r) && |r.movers| == |r.choices| && |r.states| > 0 && forall i :: 0 <= i < |r.movers| && r.movers[i] == t ==> r.choices[i] == Works
    ensures t < |Last(r).pcs| && Last(r).pcs[t] == Finished(None)
  {
    hide Loadable, Inv, Step, Init, IsRun, OpenFailed, Enabled;
    var r1 := OpenFailsOnce(c, u);
    var r2 := EndsAlone(c, r1, u);
    LastInv(c, r2);
    r := EndsAlone(c, r2, t);
    LastInv(c, r);
    FailureStays(c, r1, r, u);
    RunOf(c, r);
    CallOutcome(c, r.states, r.movers, r.choices, t, |r.movers|);
  }

  lemma RunOf(c: Config, r: Trace)
    requires IsRun(c, r)
    ensures Run(c, r.states, r.movers, r.choices)
  {
  }

  /** The first caller comes as far as reading the archive, and that fails. */
  lemma OpenFailsOnce(c: Config, u: nat) returns (r: Trace)
    requires (forall v :: 0 <= v < |c.calls| ==> c.calls[v].obj < |c.infos|) && u < |c.calls|
    ensures IsRun(c, r) && |r.states| == |r.movers| + 1 == |r.choices| + 1 && |Last(r).pcs| == |c.calls|
    ensures (forall i :: 0 <= i < |r.movers| ==> r.movers[i] == u) && (forall v :: 0 <= v < |c.calls| && v != u ==> Last(r).pcs[v].Start?)
    ensures OpenFailed(c, r.states, r.movers, r.choices, c.calls[u].obj, |r.movers|)
  {
    var r0 := FirstTrace(c);
    hide Inv, Step, Init, IsRun, OpeningFailsAt;
    var r1 := ReachesPopulate(c, r0, u);
    LastInv(c, r1);
    UndisturbedIsEnabled(c, Last(r1), u);
    r := ExtendTrace(c, r1, u, CannotOpen);
    StepMover(c, Last(r1), Last(r), u, CannotOpen);
    LastInv(c, r);
    FailsAtPopulate(c, r, u);
  }

  lemma FirstTrace(c: Config) returns (r: Trace)
    requires forall v :: 0 <= v < |c.calls| ==> c.calls[v].obj < |c.infos|
    ensures IsRun(c, r) && |r.states| == 1 && r.movers == [] && Shaped(c, Last(r)) && |Last(r).pcs| == |c.calls|
    ensures forall v :: 0 <= v < |c.calls| ==> Last(r).pcs[v].Start? && Untouched(c, Last(r), v)
  {
    var s0 := State(seq(|c.infos|, _ => Obj(map[], false, None, NullImage)), map[], [], {}, seq(|c.calls|, _ => Start));
    r := Trace([s0], [], []);
    assert Init(c, s0);
  }

  lemma FailsAtPopulate(c: Config, r: Trace, u: nat)
    requires |r.movers| >= 1 && |r.states| == |r.movers| + 1 == |r.choices| + 1 && u < |c.calls|
    requires var n := |r.movers| - 1;
      && r.movers[n] == u && r.choices[n] == CannotOpen && Shaped(c, r.states[n])
      && r.states[n].pcs[u].Populate? && r.states[n].registry == map[]
    ensures OpenFailed(c, r.states, r.movers, r.choices, c.calls[u].obj, |r.movers|)
  {
    assert OpeningFailsAt(c, r.states, r.movers, r.choices, c.calls[u].obj, |r.movers| - 1);
  }

  lemma FailureStays(c: Config, r: Trace, r': Trace, u: nat)
    requires r.states <= r'.states && r.movers <= r'.movers && r.choices <= r'.choices && u < |c.calls|
    requires |r.states| == |r.movers| + 1 == |r.choices| + 1 && |r'.states| == |r'.movers| + 1 == |r'.choices| + 1
    requires OpenFailed(c, r.states, r.movers, r.choices, c.calls[u].obj, |r.movers|)
    ensures OpenFailed(c, r'.states, r'.movers, r'.choices, c.calls[u].obj, |r'.movers|)
  {
    hide OpeningFails;
    var i :| 0 <= i < |r.movers| && OpeningFailsAt(c, r.states, r.movers, r.choices, c.calls[u].obj, i);
    assert OpeningFailsAt(c, r'.states, r'.movers, r'.choices, c.calls[u].obj, i);
  }

  // ---------------------------------------------------------------- from the build to the call

  /** What the build wrote can be loaded: an archive that holds the image of some sources under the object's
      entry, with a binary of the object's name among them. */
  lemma WrittenIsLoadable(c: Config, info: Info, es: seq<Entry>, j: nat, ss: seq<Source>, ignoreJson: bool, compress: Compressor)
    requires Inverse(compress, c.decompress) && ArchiveFits(es) && ImageFits(ss, ignoreJson)
    requires j < |es| && FirstOfItsName(es, j) && es[j].data == AksImage(ss, ignoreJson, compress)
    requires c.disk(info.zip) == Some(ZipImage(es)) && info.entry == es[j].name
    ensures Loadable(c, info) <==> HasBinary(ss, info.stem)
  {
    hide ZipImage, ArchiveFits, ImageFits, AksImage, InnerMap, ListZip, OpenImage, FilterIn, WellPlaced, Inverse, FirstOfItsName, FirstNamed, CName;
    StoredKernelComesBack(es, j, ss, ignoreJson, compress, c.decompress, info.stem);
    FirstUnderIsFirstNamed(ss, info.stem);
  }

  /** Source n is the first whose name, read up to a NUL, is the key. */
  ghost predicate FirstUnder(ss: seq<Source>, n: nat, key: Name) {
    n < |ss| && CName(ss[n].name) == key && forall i :: 0 <= i < n ==> CName(ss[i].name) != key
  }

  /** The first source under a name has a binary. */
  ghost predicate HasBinary(ss: seq<Source>, key: Name) { exists n: nat :: FirstUnder(ss, n, key) && ss[n].blob != [] }

  lemma FirstUnderIsFirstNamed(ss: seq<Source>, key: Name)
    ensures forall n: nat :: FirstUnder(ss, n, key) <==> n < |ss| && n == FirstNamed(ss, 0, key)
  {
    hide FirstNamed, CName;
  }

  /** From the build to the call: in every run in which nothing fails for any caller of the object, a call that is
      over has returned a function if the object's image was packed with a binary under its name, null otherwise. */
  lemma PackedKernelIsReturned(c: Config, states: seq<State>, movers: seq<nat>, choices: seq<Choice>, t: nat, n: nat,
                               es: seq<Entry>, j: nat, ss: seq<Source>, ignoreJson: bool, compress: Compressor)
    requires Run(c, states, movers, choices) && n <= |movers| && t < |c.calls| && |states[n].pcs| == |c.calls| && c.calls[t].obj < |c.infos|
    requires forall i :: 0 <= i < n && movers[i] < |c.calls| && c.calls[movers[i]].obj == c.calls[t].obj ==> choices[i] == Works
    requires Inverse(compress, c.decompress) && ArchiveFits(es) && ImageFits(ss, ignoreJson)
    requires j < |es| && FirstOfItsName(es, j) && es[j].data == AksImage(ss, ignoreJson, compress)
    requires c.disk(c.infos[c.calls[t].obj].zip) == Some(ZipImage(es)) && c.infos[c.calls[t].obj].entry == es[j].name
    requires Over(states[n].pcs[t])
    ensures EndsWithFunction(states[n].pcs[t]) <==> HasBinary(ss, c.infos[c.calls[t].obj].stem)
    ensures EndsWithFunction(states[n].pcs[t]) || states[n].pcs[t] == Finished(None)
  {
    hide Init, Step, Loadable, ZipImage, ArchiveFits, ImageFits, AksImage, Inverse, FirstOfItsName, FirstUnder;
    WrittenIsLoadable(c, c.infos[c.calls[t].obj], es, j, ss, ignoreJson, compress);
    CallOutcome(c, states, movers, choices, t, n);
  }
}
