/** The run-time kernel cache: threads ask kernel objects for a device function; a missing one is loaded
    under the object's lock, through a shared registry of archive directories and opened images.
    Locks are shared mutexes held by the threads whose program counters lie inside the guarded regions.
    Every call that can fail (opening, reading, decompressing, loading a module, finding its function)
    may do so at any time. */
module KernelCache {
  import opened Bytes
  import opened Options
  import opened FlatZip
  import opened Aks2
  import opened KernelStore

  type Path = string
  type Name = seq<Byte>

  /** Where a kernel object finds its image. */
  datatype Info = Info(zip: Path, entry: Name, stem: Name)

  /** One get_kernel call; a thread that makes several is several of these, run one after the other. */
  datatype Call = Call(obj: nat, dev: int)

  datatype Config = Config(calls: seq<Call>, infos: seq<Info>, disk: Path -> Option<seq<Byte>>, decompress: Decompressor)

  /** A cached directory entry: where its data lies, and its image once constructed. */
  datatype Cached = Cached(visit: Visit, ptr: Option<Opened>)

  type Registry = map<Path, map<Name, Cached>>

  /** One OnDeviceKernel; a device function is named by the number of the module it comes from. */
  datatype Obj = Obj(funcache: map<int, nat>, kernelLoaded: bool, packedKernel: Option<Opened>, essentials: Essentials)

  datatype Pc =
    | Start | Peek | WantWriter | Recheck
    | CheckLoaded | WantPacked | CheckAgain
    | WantReader | FastPath | WantRegistry | Populate | Staging(staging: map<Name, Visit>, k: nat)
    | Find | Construct | CheckStatus | Returned(image: Option<Opened>)
    | Filter | SetLoaded
    | LoadModule | GetFunction(mod: nat) | Emplace(mod: nat)
    | Finished(func: Option<nat>) | Threw

  /** modules lists the calls whose hipModuleLoadDataEx succeeded; leaked are those never cached. */
  datatype State = State(objs: seq<Obj>, registry: Registry, modules: seq<Call>, leaked: set<nat>, pcs: seq<Pc>)

  datatype Choice = Works | CannotOpen | ReadsBadly

  // ---------------------------------------------------------------- the locks

  datatype Lock = CacheReader | CacheWriter | PackedWriter | RegistryReader | RegistryWriter

  predicate Holds(pc: Pc, lock: Lock) {
    match lock
    case CacheReader => pc.Peek?
    case CacheWriter => !(pc.Start? || pc.Peek? || pc.WantWriter? || pc.Finished? || pc.Threw?)
    case PackedWriter =>
      pc.CheckAgain? || Opening(pc) || pc.Returned? || pc.Filter? || pc.SetLoaded?
    case RegistryReader => pc.FastPath?
    case RegistryWriter => pc.Populate? || pc.Staging? || pc.Find? || pc.Construct? || pc.CheckStatus?
  }

  /** Inside PackedKernel::open. */
  predicate Opening(pc: Pc) {
    pc.WantReader? || pc.FastPath? || pc.WantRegistry? || pc.Populate? || pc.Staging? || pc.Find? || pc.Construct? || pc.CheckStatus?
  }

  /** The cache and packed-kernel locks belong to an object, the registry lock to everyone. */
  predicate PerObject(lock: Lock) { lock.CacheReader? || lock.CacheWriter? || lock.PackedWriter? }

  predicate Held(c: Config, s: State, t: nat, lock: Lock)
    requires Shaped(c, s) && t < |s.pcs|
  {
    exists u :: 0 <= u < |s.pcs| && (PerObject(lock) ==> c.calls[u].obj == c.calls[t].obj) && Holds(s.pcs[u], lock)
  }

  predicate Shaped(c: Config, s: State) {
    && |s.pcs| == |c.calls| && |s.objs| == |c.infos|
    && forall t :: 0 <= t < |c.calls| ==> c.calls[t].obj < |c.infos|
  }

  predicate Over(pc: Pc) { pc.Finished? || pc.Threw? }

  /** Whether thread t can move: it has not returned, and the lock it waits for is free. */
  predicate Enabled(c: Config, s: State, t: nat)
    requires Shaped(c, s)
  {
    && t < |s.pcs| && !Over(s.pcs[t])
    && (s.pcs[t].Start? ==> !Held(c, s, t, CacheWriter))
    && (s.pcs[t].WantWriter? ==> !Held(c, s, t, CacheWriter) && !Held(c, s, t, CacheReader))
    && (s.pcs[t].WantPacked? ==> !Held(c, s, t, PackedWriter))
    && (s.pcs[t].WantReader? ==> !Held(c, s, t, RegistryWriter))
    && (s.pcs[t].WantRegistry? ==> !Held(c, s, t, RegistryWriter) && !Held(c, s, t, RegistryReader))
  }

  // ---------------------------------------------------------------- the steps

  /** What one step of a thread does to its program counter, its object and the shared state. */
  datatype Effect = Effect(pc: Pc, obj: Obj, registry: Registry, modules: seq<Call>, leaked: set<nat>)

  function Listed(c: Config, path: Path): Listing {
    match c.disk(path)
    case None => Listing(false, [])
    case Some(file) => ListZip(file)
  }

  /** Freshly staged directories hold no image yet. */
  function Unconstructed(staging: map<Name, Visit>): map<Name, Cached> {
    map name | name in staging :: Cached(staging[name], None)
  }

  ghost function OpenAt(c: Config, path: Path, v: Visit): Opened {
    match c.disk(path)
    case None => Failed(InvalidSource)
    case Some(file) => OpenImage(file, v.offset, v.size, c.decompress)
  }

  ghost function FilterOf(o: Opened, stem: Name): Essentials {
    if WellPlaced(o) then FilterIn(o, stem) else NullImage
  }

  /** get_kernel, load_for_device and decompress_kernel, one shared access at a time. */
  ghost function ObjectStep(c: Config, call: Call, info: Info, pc: Pc, obj: Obj, e: Effect, choice: Choice): Effect {
    match pc
    case Start => e.(pc := Peek)
    case Peek => e.(pc := if call.dev in obj.funcache then Finished(Some(obj.funcache[call.dev])) else WantWriter)
    case WantWriter => e.(pc := Recheck)
    case Recheck => e.(pc := if call.dev in obj.funcache then Finished(Some(obj.funcache[call.dev])) else CheckLoaded)
    case CheckLoaded => e.(pc := if obj.kernelLoaded then LoadModule else WantPacked)
    case WantPacked => e.(pc := CheckAgain)
    case CheckAgain => e.(pc := if obj.kernelLoaded then LoadModule else if obj.packedKernel.Some? then Filter else WantReader)
    case Returned(image) => e.(obj := obj.(packedKernel := image), pc := if image.Some? then Filter else SetLoaded)
    case Filter =>
      if obj.packedKernel.None? then e
      else e.(obj := obj.(essentials := FilterOf(obj.packedKernel.value, info.stem)), pc := SetLoaded)
    case SetLoaded => e.(obj := obj.(kernelLoaded := true), pc := LoadModule)
    case LoadModule =>
      if obj.essentials.NullImage? then e.(pc := Finished(None))
      else if choice != Works then e.(pc := Threw)
      else e.(modules := e.modules + [call], pc := GetFunction(|e.modules|))
    case GetFunction(h) => if choice != Works then e.(leaked := e.leaked + {h}, pc := Threw) else e.(pc := Emplace(h))
    case Emplace(h) => e.(obj := obj.(funcache := obj.funcache[call.dev := h]), pc := Finished(Some(h)))
    case _ => e
  }

  /** PackedKernel::open, one shared access at a time. */
  ghost function OpenStep(c: Config, info: Info, pc: Pc, registry: Registry, e: Effect, choice: Choice): Effect {
    match pc
    case WantReader => e.(pc := FastPath)
    case FastPath =>
      if info.zip !in registry then e.(pc := WantRegistry)
      else if info.entry !in registry[info.zip] then e.(pc := Returned(None))
      else if registry[info.zip][info.entry].ptr.Some? then e.(pc := Returned(registry[info.zip][info.entry].ptr))
      else e.(pc := WantRegistry)
    case WantRegistry => e.(pc := Populate)
    case Populate =>
      if info.zip in registry then e.(pc := Find)
      else if choice != Works || c.disk(info.zip).None? then e.(pc := Returned(None))
      else e.(pc := Staging(map[], 0))
    case Staging(staging, k) =>
      var listing := Listed(c, info.zip);
      if choice != Works then e.(pc := Returned(None))
      else if k < |listing.visits| then
        var v := listing.visits[k];
        e.(pc := Staging(if v.name in staging then staging else staging[v.name := v], k + 1))
      else if !listing.ok then e.(pc := Returned(None))
      else e.(registry := registry[info.zip := Unconstructed(staging)], pc := Find)
    case Find =>
      if info.zip !in registry || info.entry !in registry[info.zip] then e.(pc := Returned(None))
      else if registry[info.zip][info.entry].ptr.Some? then e.(pc := Returned(registry[info.zip][info.entry].ptr))
      else e.(pc := Construct)
    case Construct =>
      if choice == CannotOpen || info.zip !in registry || info.entry !in registry[info.zip] then e.(pc := Returned(None))
      else
        var cached := registry[info.zip][info.entry];
        var image := if choice == Works then OpenAt(c, info.zip, cached.visit) else Failed(IllegalState);
        e.(registry := WithPtr(registry, info, Some(image)), pc := CheckStatus)
    case CheckStatus =>
      if info.zip !in registry || info.entry !in registry[info.zip] || registry[info.zip][info.entry].ptr.None? then e
      else if registry[info.zip][info.entry].ptr.value.status != Success then
        e.(registry := WithPtr(registry, info, None), pc := Returned(None))
      else e.(pc := Returned(registry[info.zip][info.entry].ptr))
    case _ => e
  }

  /** it->second.ptr = ptr */
  function WithPtr(registry: Registry, info: Info, ptr: Option<Opened>): Registry
    requires info.zip in registry && info.entry in registry[info.zip]
  {
    var inner := registry[info.zip];
    registry[info.zip := inner[info.entry := inner[info.entry].(ptr := ptr)]]
  }

  ghost function Act(c: Config, s: State, t: nat, choice: Choice): Effect
    requires Shaped(c, s) && t < |s.pcs|
  {
    var call, pc := c.calls[t], s.pcs[t];
    var obj, info := s.objs[call.obj], c.infos[call.obj];
    var e := Effect(pc, obj, s.registry, s.modules, s.leaked);
    if Opening(pc) then OpenStep(c, info, pc, s.registry, e, choice) else ObjectStep(c, call, info, pc, obj, e, choice)
  }

  ghost predicate Step(c: Config, s: State, s': State, t: nat, choice: Choice) {
    && Shaped(c, s) && t < |s.pcs| && Enabled(c, s, t)
    && var e := Act(c, s, t, choice);
       s' == State(s.objs[c.calls[t].obj := e.obj], e.registry, e.modules, e.leaked, s.pcs[t := e.pc])
  }

  ghost predicate Init(c: Config, s: State) {
    && (forall t :: 0 <= t < |c.calls| ==> c.calls[t].obj < |c.infos|)
    && s == State(seq(|c.infos|, _ => Obj(map[], false, None, NullImage)), map[], [], {}, seq(|c.calls|, _ => Start))
  }

  ghost predicate Steps(c: Config, states: seq<State>, movers: seq<nat>, choices: seq<Choice>) {
    && |states| == |movers| + 1 == |choices| + 1
    && forall i :: 0 <= i < |movers| ==> Step(c, states[i], states[i + 1], movers[i], choices[i])
  }

  ghost predicate Run(c: Config, states: seq<State>, movers: seq<nat>, choices: seq<Choice>) {
    Steps(c, states, movers, choices) && Init(c, states[0])
  }

  // ---------------------------------------------------------------- what every state satisfies

  /** What the archive on disk says about a kernel object's image. */
  ghost predicate RightImage(c: Config, info: Info, o: Opened) {
    && o.status == Success && Listed(c, info.zip).ok
    && var dir := InnerMap(Listed(c, info.zip).visits);
       info.entry in dir && o == OpenAt(c, info.zip, dir[info.entry])
  }

  /** A cached directory is the archive's whole directory. */
  ghost predicate WholeDirectory(c: Config, path: Path, inner: map<Name, Cached>) {
    && Listed(c, path).ok
    && var dir := InnerMap(Listed(c, path).visits);
       inner.Keys == dir.Keys && forall name :: name in inner ==> inner[name].visit == dir[name]
  }

  /** An image in the registry that did not open. */
  ghost predicate Bad(registry: Registry, path: Path, name: Name) {
    path in registry && name in registry[path] && registry[path][name].ptr.Some? && registry[path][name].ptr.value.status != Success
  }

  ghost predicate RegistryOk(c: Config, registry: Registry) {
    forall path :: path in registry ==> InnerOk(c, path, registry[path])
  }

  ghost predicate InnerOk(c: Config, path: Path, inner: map<Name, Cached>) {
    && WholeDirectory(c, path, inner)
    && forall name :: name in inner && inner[name].ptr.Some? && inner[name].ptr.value.status == Success ==>
         inner[name].ptr.value == OpenAt(c, path, inner[name].visit)
  }

  ghost predicate ObjOk(info: Info, c: Config, o: nat, obj: Obj, modules: seq<Call>, leaked: set<nat>) {
    && (obj.packedKernel.Some? ==> RightImage(c, info, obj.packedKernel.value))
    && (obj.essentials.Image? || obj.kernelLoaded ==> EssentialsSet(info, obj))
    && (forall dev :: dev in obj.funcache ==>
          && obj.kernelLoaded && obj.essentials.Image?
          && obj.funcache[dev] < |modules| && modules[obj.funcache[dev]] == Call(o, dev) && obj.funcache[dev] !in leaked)
  }

  /** The essentials are what the opened image says; null when nothing opened. */
  ghost predicate EssentialsSet(info: Info, obj: Obj) {
    obj.essentials == if obj.packedKernel.Some? then FilterOf(obj.packedKernel.value, info.stem) else NullImage
  }

  ghost predicate ThreadOk(c: Config, call: Call, info: Info, pc: Pc, obj: Obj, registry: Registry,
                           modules: seq<Call>, leaked: set<nat>) {
    && (Holds(pc, CacheWriter) && !pc.Recheck? ==> call.dev !in obj.funcache)
    && (pc.WantPacked? || Holds(pc, PackedWriter) ==> !obj.kernelLoaded)
    && (Opening(pc) || pc.Returned? ==> obj.packedKernel.None?)
    && match pc
       case Staging(staging, k) =>
         && info.zip !in registry && c.disk(info.zip).Some?
         && k <= |Listed(c, info.zip).visits| && staging == InnerMap(Listed(c, info.zip).visits[..k])
       case Find => info.zip in registry
       case Construct => info.zip in registry && info.entry in registry[info.zip] && registry[info.zip][info.entry].ptr.None?
       case CheckStatus => info.zip in registry && info.entry in registry[info.zip] && registry[info.zip][info.entry].ptr.Some?
       case Returned(image) => image.Some? ==> RightImage(c, info, image.value)
       case Filter => obj.packedKernel.Some?
       case SetLoaded => EssentialsSet(info, obj)
       case LoadModule => obj.kernelLoaded
       case GetFunction(h) => obj.kernelLoaded && obj.essentials.Image? && h < |modules| && modules[h] == call && h !in leaked
       case Emplace(h) => obj.kernelLoaded && obj.essentials.Image? && h < |modules| && modules[h] == call && h !in leaked
       case Finished(func) =>
         if func.None? then obj.kernelLoaded && obj.essentials.NullImage?
         else call.dev in obj.funcache && obj.funcache[call.dev] == func.value
       case _ => true
  }

  ghost predicate ThreadsOk(c: Config, s: State)
    requires Shaped(c, s)
  {
    forall t :: 0 <= t < |s.pcs| ==> ThreadAt(c, s, t)
  }

  ghost predicate ThreadAt(c: Config, s: State, t: nat)
    requires Shaped(c, s) && t < |s.pcs|
  {
    var o := c.calls[t].obj;
    ThreadOk(c, c.calls[t], c.infos[o], s.pcs[t], s.objs[o], s.registry, s.modules, s.leaked)
  }

  ghost predicate ObjsOk(c: Config, s: State)
    requires Shaped(c, s)
  {
    forall o :: 0 <= o < |s.objs| ==> ObjOk(c.infos[o], c, o, s.objs[o], s.modules, s.leaked)
  }

  /** Only one thread holds a writer's lock, and no reader beside it. */
  ghost predicate Exclusion(c: Config, s: State)
    requires Shaped(c, s)
  {
    forall t, u :: 0 <= t < |s.pcs| && 0 <= u < |s.pcs| && t != u ==>
      Compatible(c.calls[t].obj == c.calls[u].obj, s.pcs[t], s.pcs[u])
  }

  ghost predicate Compatible(sameObj: bool, p: Pc, q: Pc) {
    && (sameObj && Holds(p, CacheWriter) ==> !Holds(q, CacheWriter) && !Holds(q, CacheReader))
    && (sameObj && Holds(p, PackedWriter) ==> !Holds(q, PackedWriter))
    && (Holds(p, RegistryWriter) ==> !Holds(q, RegistryWriter) && !Holds(q, RegistryReader))
  }

  /** An image that did not open is seen only by the thread that is about to remove it. */
  ghost predicate BadHidden(c: Config, s: State)
    requires Shaped(c, s)
  {
    forall path, name :: Bad(s.registry, path, name) ==> exists t :: 0 <= t < |s.pcs| && Checking(c, s, t, path, name)
  }

  ghost predicate Checking(c: Config, s: State, t: nat, path: Path, name: Name)
    requires Shaped(c, s) && t < |s.pcs|
  {
    s.pcs[t].CheckStatus? && c.infos[c.calls[t].obj].zip == path && c.infos[c.calls[t].obj].entry == name
  }

  ghost predicate LeaksLogged(modules: seq<Call>, leaked: set<nat>) { forall h :: h in leaked ==> h < |modules| }

  ghost predicate Inv(c: Config, s: State) {
    && Shaped(c, s) && LeaksLogged(s.modules, s.leaked) && RegistryOk(c, s.registry)
    && ObjsOk(c, s) && ThreadsOk(c, s) && Exclusion(c, s) && BadHidden(c, s)
  }

  lemma InitInv(c: Config, s: State)
    requires Init(c, s)
    ensures Inv(c, s)
  {
  }

  // ---------------------------------------------------------------- one step

  /** What a step leaves in place: directories, opened images, loaded essentials, cached functions. */
  ghost predicate RegistryKept(r: Registry, r': Registry) {
    forall path :: path in r ==> path in r' && r'[path].Keys == r[path].Keys && forall name :: name in r[path] ==>
      && r'[path][name].visit == r[path][name].visit
      && (r[path][name].ptr.Some? && r[path][name].ptr.value.status == Success ==> r'[path][name].ptr == r[path][name].ptr)
  }

  ghost predicate ObjKept(obj: Obj, obj': Obj) {
    && (obj.packedKernel.Some? ==> obj'.packedKernel == obj.packedKernel)
    && (obj.kernelLoaded ==> obj'.kernelLoaded && obj'.packedKernel == obj.packedKernel && obj'.essentials == obj.essentials)
    && (forall dev :: dev in obj.funcache ==> dev in obj'.funcache && obj'.funcache[dev] == obj.funcache[dev])
  }

  /** The module log grows; what becomes leaked was loaded for this very call. */
  ghost predicate LogGrows(call: Call, modules: seq<Call>, leaked: set<nat>, modules': seq<Call>, leaked': set<nat>) {
    && modules <= modules' && LeaksLogged(modules', leaked') && leaked <= leaked'
    && (forall h :: h in leaked' && h !in leaked ==> h < |modules| && modules[h] == call)
  }

  /** The object and the log after a step outside open, and the program counter it leads to. */
  ghost predicate ObjectOk(c: Config, call: Call, info: Info, pc: Pc, obj: Obj, e: Effect, e': Effect) {
    && e'.registry == e.registry && LogGrows(call, e.modules, e.leaked, e'.modules, e'.leaked)
    && ObjOk(info, c, call.obj, e'.obj, e'.modules, e'.leaked) && ObjKept(obj, e'.obj)
    && ThreadOk(c, call, info, e'.pc, e'.obj, e'.registry, e'.modules, e'.leaked)
    && (e'.obj != obj || e'.modules != e.modules || e'.leaked != e.leaked ==> Holds(pc, CacheWriter))
    && (e'.modules != e.modules ==> call.dev !in obj.funcache)
  }

  ghost predicate ObjectReady(c: Config, call: Call, info: Info, pc: Pc, obj: Obj, e: Effect) {
    && e.obj == obj && e.pc == pc && !Opening(pc) && LeaksLogged(e.modules, e.leaked)
    && ObjOk(info, c, call.obj, obj, e.modules, e.leaked)
    && ThreadOk(c, call, info, pc, obj, e.registry, e.modules, e.leaked)
  }

  /** Steps outside open touch only the thread's own object and the module log. */
  lemma ObjectStepOk(c: Config, call: Call, info: Info, pc: Pc, obj: Obj, e: Effect, choice: Choice)
    requires ObjectReady(c, call, info, pc, obj, e)
    ensures ObjectOk(c, call, info, pc, obj, e, ObjectStep(c, call, info, pc, obj, e, choice))
  {
    hide ObjectStep, ThreadOk, ObjOk, ObjectOk;
    if pc.LoadModule? || pc.GetFunction? || pc.Emplace? {
      LoadingStepOk(c, call, info, pc, obj, e, choice);
    } else if pc.Returned? || pc.Filter? || pc.SetLoaded? {
      DecompressStepOk(c, call, info, pc, obj, e, choice);
    } else {
      LookingStepOk(c, call, info, pc, obj, e, choice);
    }
  }

  lemma LoadingStepOk(c: Config, call: Call, info: Info, pc: Pc, obj: Obj, e: Effect, choice: Choice)
    requires ObjectReady(c, call, info, pc, obj, e) && (pc.LoadModule? || pc.GetFunction? || pc.Emplace?)
    ensures ObjectOk(c, call, info, pc, obj, e, ObjectStep(c, call, info, pc, obj, e, choice))
  {
    hide RightImage, FilterOf, InnerMap, Listed, OpenAt;
  }

  lemma DecompressStepOk(c: Config, call: Call, info: Info, pc: Pc, obj: Obj, e: Effect, choice: Choice)
    requires ObjectReady(c, call, info, pc, obj, e) && (pc.Returned? || pc.Filter? || pc.SetLoaded?)
    ensures ObjectOk(c, call, info, pc, obj, e, ObjectStep(c, call, info, pc, obj, e, choice))
  {
    hide RightImage, FilterOf, InnerMap, Listed, OpenAt;
  }

  lemma LookingStepOk(c: Config, call: Call, info: Info, pc: Pc, obj: Obj, e: Effect, choice: Choice)
    requires ObjectReady(c, call, info, pc, obj, e)
    requires !pc.LoadModule? && !pc.GetFunction? && !pc.Emplace? && !pc.Returned? && !pc.Filter? && !pc.SetLoaded?
    ensures ObjectOk(c, call, info, pc, obj, e, ObjectStep(c, call, info, pc, obj, e, choice))
  {
    hide RightImage, InnerMap, Listed, OpenAt;
    if Holds(pc, CacheWriter) && obj.kernelLoaded { assert EssentialsSet(info, obj); }
    hide EssentialsSet, FilterOf;
  }

  /** The registry after a step inside open, and the program counter it leads to, are as they should be. */
  ghost predicate OpenOk(c: Config, call: Call, info: Info, pc: Pc, obj: Obj, e: Effect, e': Effect) {
    && e'.obj == obj && e'.modules == e.modules && e'.leaked == e.leaked
    && RegistryOk(c, e'.registry) && RegistryKept(e.registry, e'.registry)
    && BadMoves(e.registry, e'.registry, pc, e'.pc, info)
    && ThreadOk(c, call, info, e'.pc, obj, e'.registry, e.modules, e.leaked)
    && (e'.registry != e.registry ==> Holds(pc, RegistryWriter))
  }

  ghost predicate OpenReady(c: Config, call: Call, info: Info, pc: Pc, obj: Obj, e: Effect) {
    && e.obj == obj && e.pc == pc && Opening(pc) && RegistryOk(c, e.registry)
    && (pc.FastPath? || pc.Find? ==> !Bad(e.registry, info.zip, info.entry))
    && ThreadOk(c, call, info, pc, obj, e.registry, e.modules, e.leaked)
  }

  /** Steps inside open touch only the registry. */
  lemma OpenStepOk(c: Config, call: Call, info: Info, pc: Pc, obj: Obj, e: Effect, choice: Choice)
    requires OpenReady(c, call, info, pc, obj, e)
    ensures OpenOk(c, call, info, pc, obj, e, OpenStep(c, info, pc, e.registry, e, choice))
  {
    hide OpenOk, OpenStep, RegistryOk, ThreadOk;
    if pc.Staging? {
      StagingStepOk(c, call, info, pc, obj, e, choice);
    } else if pc.Construct? {
      ConstructStepOk(c, call, info, pc, obj, e, choice);
    } else if pc.CheckStatus? {
      CheckStepOk(c, call, info, pc, obj, e, choice);
    } else {
      ReadingStepOk(c, call, info, pc, obj, e, choice);
    }
  }

  lemma ReadingStepOk(c: Config, call: Call, info: Info, pc: Pc, obj: Obj, e: Effect, choice: Choice)
    requires OpenReady(c, call, info, pc, obj, e) && !pc.Staging? && !pc.Construct? && !pc.CheckStatus?
    ensures OpenOk(c, call, info, pc, obj, e, OpenStep(c, info, pc, e.registry, e, choice))
  {
    NothingStaged(Listed(c, info.zip).visits);
    hide InnerMap, Listed, OpenAt, FilterOf, Unconstructed, WithPtr, EssentialsSet;
    if info.zip in e.registry { assert InnerOk(c, info.zip, e.registry[info.zip]); }
  }

  lemma StagingStepOk(c: Config, call: Call, info: Info, pc: Pc, obj: Obj, e: Effect, choice: Choice)
    requires OpenReady(c, call, info, pc, obj, e) && pc.Staging?
    ensures OpenOk(c, call, info, pc, obj, e, OpenStep(c, info, pc, e.registry, e, choice))
  {
    hide InnerMap, Listed, OpenAt, FilterOf, Unconstructed, WithPtr, EssentialsSet, InnerOk, RightImage;
    var visits := Listed(c, info.zip).visits;
    if pc.k < |visits| { StageOne(visits, pc.k); } else { StagedAll(c, info.zip, pc.staging); }
  }

  lemma ConstructStepOk(c: Config, call: Call, info: Info, pc: Pc, obj: Obj, e: Effect, choice: Choice)
    requires OpenReady(c, call, info, pc, obj, e) && pc.Construct?
    ensures OpenOk(c, call, info, pc, obj, e, OpenStep(c, info, pc, e.registry, e, choice))
  {
    hide InnerMap, Listed, OpenAt, FilterOf, Unconstructed, WithPtr, EssentialsSet, InnerOk, RightImage, RegistryOk, Bad;
    var v := e.registry[info.zip][info.entry].visit;
    if choice != CannotOpen {
      PtrStored(c, info, e.registry, if choice == Works then OpenAt(c, info.zip, v) else Failed(IllegalState));
    }
  }

  lemma CheckStepOk(c: Config, call: Call, info: Info, pc: Pc, obj: Obj, e: Effect, choice: Choice)
    requires OpenReady(c, call, info, pc, obj, e) && pc.CheckStatus?
    ensures OpenOk(c, call, info, pc, obj, e, OpenStep(c, info, pc, e.registry, e, choice))
  {
    hide InnerMap, Listed, OpenAt, FilterOf, Unconstructed, WithPtr, EssentialsSet;
    if Bad(e.registry, info.zip, info.entry) {
      PtrRemoved(c, info, e.registry);
    } else {
      assert InnerOk(c, info.zip, e.registry[info.zip]);
    }
  }

  lemma NothingStaged(visits: seq<Visit>)
    ensures InnerMap(visits[..0]) == map[]
  {
  }

  /** A bad image is one that was there and is not this thread's, or the one this thread is about to check. */
  ghost predicate BadMoves(r: Registry, r': Registry, pc: Pc, pc': Pc, info: Info) {
    forall path, name :: Bad(r', path, name) ==>
      if path == info.zip && name == info.entry && pc.CheckStatus? then pc'.CheckStatus?
      else Bad(r, path, name) || (pc'.CheckStatus? && path == info.zip && name == info.entry)
  }

  lemma StageOne(visits: seq<Visit>, k: nat)
    requires k < |visits|
    ensures var staging, v := InnerMap(visits[..k]), visits[k];
      InnerMap(visits[..k + 1]) == if v.name in staging then staging else staging[v.name := v]
  {
    assert visits[..k + 1][..k] == visits[..k];
  }

  lemma StagedAll(c: Config, path: Path, staging: map<Name, Visit>)
    requires var visits := Listed(c, path).visits; staging == InnerMap(visits[..|visits|])
    ensures Listed(c, path).ok ==> InnerOk(c, path, Unconstructed(staging))
    ensures forall name :: name in Unconstructed(staging) ==> Unconstructed(staging)[name].ptr.None?
  {
    hide InnerMap, Listed;
    var visits := Listed(c, path).visits;
    assert visits[..|visits|] == visits;
    UnconstructedKeys(staging);
    hide Unconstructed;
  }

  lemma UnconstructedKeys(staging: map<Name, Visit>)
    ensures var inner := Unconstructed(staging);
      inner.Keys == staging.Keys && forall name :: name in inner ==> inner[name] == Cached(staging[name], None)
  {
  }

  lemma PtrStored(c: Config, info: Info, r: Registry, image: Opened)
    requires RegistryOk(c, r) && info.zip in r && info.entry in r[info.zip] && r[info.zip][info.entry].ptr.None?
    requires image.status == Success ==> image == OpenAt(c, info.zip, r[info.zip][info.entry].visit)
    ensures var r' := WithPtr(r, info, Some(image));
      && RegistryOk(c, r') && RegistryKept(r, r') && info.zip in r' && info.entry in r'[info.zip]
      && r'[info.zip][info.entry].ptr == Some(image) && OthersBad(r, r', info)
  {
    hide InnerMap, Listed, OpenAt;
    var r' := WithPtr(r, info, Some(image));
    assert InnerOk(c, info.zip, r[info.zip]);
    assert InnerOk(c, info.zip, r'[info.zip]);
  }

  ghost predicate OthersBad(r: Registry, r': Registry, info: Info) {
    forall path, name :: Bad(r', path, name) ==> Bad(r, path, name) || (path == info.zip && name == info.entry)
  }

  lemma PtrRemoved(c: Config, info: Info, r: Registry)
    requires RegistryOk(c, r) && Bad(r, info.zip, info.entry)
    ensures var r' := WithPtr(r, info, None);
      && RegistryOk(c, r') && RegistryKept(r, r') && OthersBad(r, r', info) && !Bad(r', info.zip, info.entry)
  {
    hide InnerMap, Listed, OpenAt;
    var r' := WithPtr(r, info, None);
    assert InnerOk(c, info.zip, r[info.zip]);
    assert InnerOk(c, info.zip, r'[info.zip]);
  }

  // ---------------------------------------------------------------- every step keeps the invariant

  /** Everything a step does, seen from outside. */
  ghost predicate ActOk(c: Config, s: State, t: nat, e: Effect)
    requires Shaped(c, s) && t < |s.pcs|
  {
    var call, pc := c.calls[t], s.pcs[t];
    var obj, info := s.objs[call.obj], c.infos[call.obj];
    && RegistryOk(c, e.registry) && RegistryKept(s.registry, e.registry) && BadMoves(s.registry, e.registry, pc, e.pc, info)
    && ObjOk(info, c, call.obj, e.obj, e.modules, e.leaked) && ObjKept(obj, e.obj)
    && LogGrows(call, s.modules, s.leaked, e.modules, e.leaked)
    && ThreadOk(c, call, info, e.pc, e.obj, e.registry, e.modules, e.leaked)
    && (e.registry != s.registry ==> Holds(pc, RegistryWriter))
    && (e.obj != obj || e.modules != s.modules || e.leaked != s.leaked ==> Holds(pc, CacheWriter))
    && (e.modules != s.modules ==> call.dev !in obj.funcache)
  }

  lemma StepActsOk(c: Config, s: State, t: nat, choice: Choice)
    requires Inv(c, s) && t < |s.pcs|
    ensures ActOk(c, s, t, Act(c, s, t, choice))
  {
    var call, pc := c.calls[t], s.pcs[t];
    var obj, info := s.objs[call.obj], c.infos[call.obj];
    var e := Effect(pc, obj, s.registry, s.modules, s.leaked);
    assert ThreadAt(c, s, t) && ObjOk(info, c, call.obj, obj, s.modules, s.leaked);
    hide ObjectStep, OpenStep, ThreadOk, ObjOk, RegistryOk, ObjKept, RegistryKept, LogGrows, BadMoves, LeaksLogged, Bad;
    if Opening(pc) {
      if pc.FastPath? || pc.Find? { NothingBad(c, s, t); }
      OpenStepOk(c, call, info, pc, obj, e, choice);
      ObjectUnmoved(call, obj, s.modules, s.leaked);
    } else {
      ObjectStepOk(c, call, info, pc, obj, e, choice);
      RegistryUnmoved(s.registry, pc, Act(c, s, t, choice).pc, info);
    }
  }

  lemma ObjectUnmoved(call: Call, obj: Obj, modules: seq<Call>, leaked: set<nat>)
    requires LeaksLogged(modules, leaked)
    ensures ObjKept(obj, obj) && LogGrows(call, modules, leaked, modules, leaked)
  {
  }

  lemma RegistryUnmoved(r: Registry, pc: Pc, pc': Pc, info: Info)
    requires !Opening(pc)
    ensures RegistryKept(r, r) && BadMoves(r, r, pc, pc', info)
  {
    hide Bad;
  }

  /** A thread that may read the registry sees no image that failed to open. */
  lemma NothingBad(c: Config, s: State, t: nat)
    requires Shaped(c, s) && BadHidden(c, s) && Exclusion(c, s) && t < |s.pcs| && (s.pcs[t].FastPath? || s.pcs[t].Find?)
    ensures forall path, name :: !Bad(s.registry, path, name)
  {
    hide Bad;
    assert forall u :: 0 <= u < |s.pcs| && u != t ==> Compatible(c.calls[u].obj == c.calls[t].obj, s.pcs[u], s.pcs[t]);
  }

  /** A thread other than the mover keeps what it knows. */
  lemma OtherThread(c: Config, call: Call, info: Info, pc: Pc, obj: Obj, obj': Obj, r: Registry, r': Registry,
                    modules: seq<Call>, leaked: set<nat>, modules': seq<Call>, leaked': set<nat>, mover: Call, moving: Pc)
    requires ThreadOk(c, call, info, pc, obj, r, modules, leaked)
    requires Compatible(mover.obj == call.obj, moving, pc) && ObjKept(obj, obj')
    requires LogGrows(mover, modules, leaked, modules', leaked')
    requires mover.obj != call.obj ==> obj' == obj
    requires r' != r ==> Holds(moving, RegistryWriter)
    requires obj' != obj || modules' != modules || leaked' != leaked ==> Holds(moving, CacheWriter)
    ensures ThreadOk(c, call, info, pc, obj', r', modules', leaked')
  {
    hide RightImage, InnerMap, Listed, FilterOf;
  }

  lemma OtherObj(c: Config, info: Info, o: nat, obj: Obj, modules: seq<Call>, leaked: set<nat>,
                 modules': seq<Call>, leaked': set<nat>, mover: Call)
    requires ObjOk(info, c, o, obj, modules, leaked) && mover.obj != o && LogGrows(mover, modules, leaked, modules', leaked')
    ensures ObjOk(info, c, o, obj, modules', leaked')
  {
    hide RightImage, EssentialsSet, LeaksLogged;
  }

  /** Which waiting point leads to a lock. */
  predicate Awaits(pc: Pc, lock: Lock) {
    match lock
    case CacheReader => pc.Start?
    case CacheWriter => pc.WantWriter?
    case PackedWriter => pc.WantPacked?
    case RegistryReader => pc.WantReader?
    case RegistryWriter => pc.WantRegistry?
  }

  /** A lock is gained only by a thread that waited for it. */
  lemma LockGained(c: Config, s: State, t: nat, choice: Choice, lock: Lock)
    requires Shaped(c, s) && t < |s.pcs| && Holds(Act(c, s, t, choice).pc, lock)
    ensures Holds(s.pcs[t], lock) || Awaits(s.pcs[t], lock)
  {
    hide ObjectStep, OpenStep, Holds;
    var call, pc := c.calls[t], s.pcs[t];
    var obj, info := s.objs[call.obj], c.infos[call.obj];
    var e := Effect(pc, obj, s.registry, s.modules, s.leaked);
    LockGainedOutside(c, call, info, pc, obj, e, choice, lock);
    LockGainedInside(c, info, pc, e, choice, lock);
  }

  lemma LockGainedOutside(c: Config, call: Call, info: Info, pc: Pc, obj: Obj, e: Effect, choice: Choice, lock: Lock)
    requires e.pc == pc
    ensures Holds(ObjectStep(c, call, info, pc, obj, e, choice).pc, lock) && !Opening(pc) ==> Holds(pc, lock) || Awaits(pc, lock)
  {
    hide FilterOf;
  }

  lemma LockGainedInside(c: Config, info: Info, pc: Pc, e: Effect, choice: Choice, lock: Lock)
    requires e.pc == pc
    ensures Holds(OpenStep(c, info, pc, e.registry, e, choice).pc, lock) && Opening(pc) ==> Holds(pc, lock) || Awaits(pc, lock)
  {
    hide Listed, OpenAt, Unconstructed, WithPtr;
  }

  lemma LocksKept(c: Config, s: State, s': State, t: nat, choice: Choice)
    requires Step(c, s, s', t, choice) && Exclusion(c, s)
    ensures Exclusion(c, s')
  {
    hide Act, Holds;
    forall u | 0 <= u < |s.pcs| && u != t
      ensures Compatible(c.calls[t].obj == c.calls[u].obj, s'.pcs[t], s.pcs[u])
      ensures Compatible(c.calls[u].obj == c.calls[t].obj, s.pcs[u], s'.pcs[t])
    {
      StillCompatible(c, s, t, u, choice);
    }
  }

  lemma StillCompatible(c: Config, s: State, t: nat, u: nat, choice: Choice)
    requires Shaped(c, s) && Enabled(c, s, t) && Exclusion(c, s) && u < |s.pcs| && u != t
    ensures var pc := Act(c, s, t, choice).pc;
      && Compatible(c.calls[t].obj == c.calls[u].obj, pc, s.pcs[u])
      && Compatible(c.calls[u].obj == c.calls[t].obj, s.pcs[u], pc)
  {
    hide Act, Holds;
    assert Compatible(c.calls[t].obj == c.calls[u].obj, s.pcs[t], s.pcs[u]);
    assert Compatible(c.calls[u].obj == c.calls[t].obj, s.pcs[u], s.pcs[t]);
    var pc := Act(c, s, t, choice).pc;
    if Holds(pc, CacheReader) { LockGained(c, s, t, choice, CacheReader); }
    if Holds(pc, CacheWriter) { LockGained(c, s, t, choice, CacheWriter); }
    if Holds(pc, PackedWriter) { LockGained(c, s, t, choice, PackedWriter); }
    if Holds(pc, RegistryReader) { LockGained(c, s, t, choice, RegistryReader); }
    if Holds(pc, RegistryWriter) { LockGained(c, s, t, choice, RegistryWriter); }
  }

  lemma BadStaysHidden(c: Config, s: State, s': State, t: nat, choice: Choice)
    requires Step(c, s, s', t, choice) && BadHidden(c, s) && ActOk(c, s, t, Act(c, s, t, choice))
    ensures BadHidden(c, s')
  {
    hide Act, ObjOk, ThreadOk, RegistryOk, Bad, Enabled;
    forall path, name | Bad(s'.registry, path, name) ensures exists u :: 0 <= u < |s'.pcs| && Checking(c, s', u, path, name) {
      var info := c.infos[c.calls[t].obj];
      if Bad(s.registry, path, name) && !(path == info.zip && name == info.entry && s.pcs[t].CheckStatus?) {
        var u :| 0 <= u < |s.pcs| && Checking(c, s, u, path, name);
        assert Checking(c, s', u, path, name);
      } else {
        assert Checking(c, s', t, path, name);
      }
    }
  }

  lemma ThreadsKept(c: Config, s: State, s': State, t: nat, choice: Choice)
    requires Inv(c, s) && Step(c, s, s', t, choice) && ActOk(c, s, t, Act(c, s, t, choice))
    ensures ThreadsOk(c, s')
  {
    hide Act, ObjOk, ThreadOk, RegistryOk, Bad, Enabled, RegistryKept, ObjKept, LogGrows, BadMoves, BadHidden, Compatible;
    forall u | 0 <= u < |s.pcs| ensures ThreadAt(c, s', u) {
      if u != t {
        assert ThreadAt(c, s, u);
        var o, mover := c.calls[u].obj, c.calls[t];
        assert Compatible(mover.obj == o, s.pcs[t], s.pcs[u]);
        if mover.obj != o { Unchanged(s.objs[o]); }
        OtherThread(c, c.calls[u], c.infos[o], s.pcs[u], s.objs[o], s'.objs[o], s.registry, s'.registry,
                    s.modules, s.leaked, s'.modules, s'.leaked, mover, s.pcs[t]);
      }
    }
  }

  lemma Unchanged(obj: Obj)
    ensures ObjKept(obj, obj)
  {
  }

  lemma ObjsKept(c: Config, s: State, s': State, t: nat, choice: Choice)
    requires Inv(c, s) && Step(c, s, s', t, choice) && ActOk(c, s, t, Act(c, s, t, choice))
    ensures ObjsOk(c, s')
  {
    hide Act, ObjOk, ThreadOk, RegistryOk, Bad, Enabled, RegistryKept, ObjKept, LogGrows, BadMoves, BadHidden, Compatible;
    forall o | 0 <= o < |s.objs| ensures ObjOk(c.infos[o], c, o, s'.objs[o], s'.modules, s'.leaked) {
      if o != c.calls[t].obj {
        assert ObjOk(c.infos[o], c, o, s.objs[o], s.modules, s.leaked);
        OtherObj(c, c.infos[o], o, s.objs[o], s.modules, s.leaked, s'.modules, s'.leaked, c.calls[t]);
      }
    }
  }

  /** What a step may change, seen from outside: directories stay whole and the same, an image once opened
      stays, essentials once loaded stay, cached functions stay, and a module is loaded only for a call whose
      device has no function yet. */
  ghost predicate Kept(c: Config, s: State, s': State, t: nat)
    requires Shaped(c, s) && Shaped(c, s') && t < |s.pcs|
  {
    && RegistryKept(s.registry, s'.registry)
    && (forall o :: 0 <= o < |s.objs| ==> ObjKept(s.objs[o], s'.objs[o]))
    && LogGrows(c.calls[t], s.modules, s.leaked, s'.modules, s'.leaked)
    && (s'.modules != s.modules ==> c.calls[t].dev !in s.objs[c.calls[t].obj].funcache)
  }

  lemma StepInv(c: Config, s: State, s': State, t: nat, choice: Choice)
    requires Inv(c, s) && Step(c, s, s', t, choice)
    ensures Inv(c, s') && Kept(c, s, s', t)
  {
    StepActsOk(c, s, t, choice);
    LocksKept(c, s, s', t, choice);
    BadStaysHidden(c, s, s', t, choice);
    ThreadsKept(c, s, s', t, choice);
    ObjsKept(c, s, s', t, choice);
    hide Act, ObjOk, ThreadOk, RegistryOk, Enabled, RegistryKept, ObjKept, BadMoves, BadHidden, Exclusion, ThreadsOk, ObjsOk;
    forall o | 0 <= o < |s.objs| ensures ObjKept(s.objs[o], s'.objs[o]) { if o != c.calls[t].obj { Unchanged(s.objs[o]); } }
  }

  lemma {:induction false} RunInv(c: Config, states: seq<State>, movers: seq<nat>, choices: seq<Choice>, i: nat)
    requires Run(c, states, movers, choices) && i < |states|
    ensures Inv(c, states[i]) && Shaped(c, states[i])
  {
    hide Init, Step, RegistryOk, ObjsOk, ThreadsOk, Exclusion, BadHidden;
    if i == 0 {
      InitInv(c, states[0]);
    } else {
      RunInv(c, states, movers, choices, i - 1);
      StepInv(c, states[i - 1], states[i], movers[i - 1], choices[i - 1]);
    }
  }

  // ---------------------------------------------------------------- modules are loaded once

  ghost predicate IsCached(s: State, h: nat) {
    && h < |s.modules| && s.modules[h].obj < |s.objs|
    && var funcache := s.objs[s.modules[h].obj].funcache;
       s.modules[h].dev in funcache && funcache[s.modules[h].dev] == h
  }

  predicate Carries(pc: Pc, h: nat) { pc == GetFunction(h) || pc == Emplace(h) }

  ghost predicate InFlight(s: State, h: nat) { exists t :: 0 <= t < |s.pcs| && Carries(s.pcs[t], h) }

  /** Every module ever loaded is cached, on its way into the cache, or lost to a failed function lookup. */
  ghost predicate Accounted(s: State) {
    forall h :: 0 <= h < |s.modules| ==> h in s.leaked || IsCached(s, h) || InFlight(s, h)
  }

  lemma StepAccounts(c: Config, s: State, s': State, t: nat, choice: Choice)
    requires Inv(c, s) && Step(c, s, s', t, choice) && Accounted(s)
    ensures Accounted(s')
  {
    StepInv(c, s, s', t, choice);
    assert ThreadAt(c, s, t);
    MoverAccounts(c, s, s', t, choice);
    hide Act, Inv, Enabled, RegistryKept, Carries, IsCached, LogGrows;
    forall h | 0 <= h < |s'.modules| ensures h in s'.leaked || IsCached(s', h) || InFlight(s', h) {
      if h < |s.modules| && h !in s'.leaked {
        if IsCached(s, h) {
          StaysCached(c, s, s', t, h);
        } else {
          LeakedStays(c, s, s', t);
          assert InFlight(s, h);
          var u :| 0 <= u < |s.pcs| && Carries(s.pcs[u], h);
          if u != t { assert Carries(s'.pcs[u], h); }
        }
      }
    }
  }

  lemma LeakedStays(c: Config, s: State, s': State, t: nat)
    requires Shaped(c, s) && Shaped(c, s') && t < |s.pcs| && Kept(c, s, s', t)
    ensures s.leaked <= s'.leaked
  {
  }

  lemma StaysCached(c: Config, s: State, s': State, t: nat, h: nat)
    requires Shaped(c, s) && Shaped(c, s') && t < |s.pcs| && Kept(c, s, s', t) && IsCached(s, h)
    ensures IsCached(s', h)
  {
    hide RegistryKept;
    assert ObjKept(s.objs[s.modules[h].obj], s'.objs[s.modules[h].obj]);
  }

  /** The module the mover carries, or has just loaded, goes on. */
  lemma MoverAccounts(c: Config, s: State, s': State, t: nat, choice: Choice)
    requires Step(c, s, s', t, choice) && ThreadAt(c, s, t)
    ensures forall h :: Carries(s.pcs[t], h) ==> h in s'.leaked || IsCached(s', h) || InFlight(s', h)
    ensures forall h :: |s.modules| <= h < |s'.modules| ==> InFlight(s', h)
  {
    var call, pc := c.calls[t], s.pcs[t];
    var obj, info := s.objs[call.obj], c.infos[call.obj];
    var e := Effect(pc, obj, s.registry, s.modules, s.leaked);
    OpenStepSharesLog(c, info, pc, s.registry, choice, e);
    if !Opening(pc) { ObjectStepAccounts(c, call, info, pc, obj, e, choice); }
    CarriedIsMine(c, s, t);
    hide ObjectStep, OpenStep, Enabled, ThreadAt;
    forall h | Carries(pc, h) ensures h in s'.leaked || IsCached(s', h) || InFlight(s', h) {
      if Carries(s'.pcs[t], h) { assert InFlight(s', h); }
    }
    if s'.modules != s.modules { assert Carries(s'.pcs[t], |s.modules|); }
  }

  lemma CarriedIsMine(c: Config, s: State, t: nat)
    requires Shaped(c, s) && t < |s.pcs| && ThreadAt(c, s, t)
    ensures forall h: nat :: Carries(s.pcs[t], h) ==> h < |s.modules| && s.modules[h] == c.calls[t]
  {
  }

  lemma ObjectStepAccounts(c: Config, call: Call, info: Info, pc: Pc, obj: Obj, e: Effect, choice: Choice)
    requires e.pc == pc && e.obj == obj && !Opening(pc)
    ensures var e' := ObjectStep(c, call, info, pc, obj, e, choice);
      && e.modules <= e'.modules
      && (forall h :: Carries(pc, h) ==>
            h in e'.leaked || Carries(e'.pc, h) || (call.dev in e'.obj.funcache && e'.obj.funcache[call.dev] == h))
      && (e'.modules != e.modules ==> |e'.modules| == |e.modules| + 1 && Carries(e'.pc, |e.modules|))
  {
    hide FilterOf;
  }

  lemma OpenStepSharesLog(c: Config, info: Info, pc: Pc, r: Registry, choice: Choice, e: Effect)
    ensures OpenStep(c, info, pc, r, e, choice).modules == e.modules
  {
    hide Listed, OpenAt, Unconstructed, WithPtr;
  }

  lemma {:induction false} RunAccounts(c: Config, states: seq<State>, movers: seq<nat>, choices: seq<Choice>, i: nat)
    requires Run(c, states, movers, choices) && i < |states|
    ensures Accounted(states[i])
  {
    hide Inv, Step, IsCached, InFlight;
    if i > 0 {
      RunAccounts(c, states, movers, choices, i - 1);
      RunInv(c, states, movers, choices, i - 1);
      StepAccounts(c, states[i - 1], states[i], movers[i - 1], choices[i - 1]);
    }
  }

  /** At most one module per object and device, not counting those lost to a failed function lookup. */
  lemma OneModulePerDevice(c: Config, states: seq<State>, movers: seq<nat>, choices: seq<Choice>, i: nat, h: nat, k: nat)
    requires Run(c, states, movers, choices) && i < |states|
    requires h < |states[i].modules| && k < |states[i].modules| && h !in states[i].leaked && k !in states[i].leaked
    requires states[i].modules[h] == states[i].modules[k]
    ensures h == k
  {
    RunInv(c, states, movers, choices, i);
    RunAccounts(c, states, movers, choices, i);
    OneOfAKind(c, states[i], h, k);
  }

  lemma OneOfAKind(c: Config, s: State, h: nat, k: nat)
    requires Inv(c, s) && Accounted(s) && h < |s.modules| && k < |s.modules|
    requires h !in s.leaked && k !in s.leaked && s.modules[h] == s.modules[k]
    ensures h == k
  {
    hide ObjOk, RegistryOk, BadHidden, IsCached, Carries;
    assert IsCached(s, h) || InFlight(s, h);
    assert IsCached(s, k) || InFlight(s, k);
    if IsCached(s, h) && IsCached(s, k) {
      CachedOnce(s, h, k);
    } else if IsCached(s, h) {
      var u :| 0 <= u < |s.pcs| && Carries(s.pcs[u], k);
      assert ThreadAt(c, s, u);
      NotBoth(c, s, u, h, k);
    } else if IsCached(s, k) {
      var u :| 0 <= u < |s.pcs| && Carries(s.pcs[u], h);
      assert ThreadAt(c, s, u);
      NotBoth(c, s, u, k, h);
    } else {
      var t :| 0 <= t < |s.pcs| && Carries(s.pcs[t], h);
      var u :| 0 <= u < |s.pcs| && Carries(s.pcs[u], k);
      assert ThreadAt(c, s, t) && ThreadAt(c, s, u);
      CarriedOnce(c, s, t, u, h, k);
    }
  }

  lemma CachedOnce(s: State, h: nat, k: nat)
    requires IsCached(s, h) && IsCached(s, k) && s.modules[h] == s.modules[k]
    ensures h == k
  {
  }

  lemma NotBoth(c: Config, s: State, u: nat, h: nat, k: nat)
    requires Shaped(c, s) && u < |s.pcs| && ThreadAt(c, s, u) && Carries(s.pcs[u], k) && IsCached(s, h)
    ensures s.modules[k] != s.modules[h]
  {
    hide RightImage, EssentialsSet;
  }

  lemma TwoThreads(c: Config, s: State, t: nat, u: nat)
    requires Shaped(c, s) && Exclusion(c, s) && t < |s.pcs| && u < |s.pcs|
    ensures t != u ==> Compatible(c.calls[t].obj == c.calls[u].obj, s.pcs[t], s.pcs[u])
  {
  }

  lemma CarriedOnce(c: Config, s: State, t: nat, u: nat, h: nat, k: nat)
    requires Shaped(c, s) && Exclusion(c, s) && t < |s.pcs| && u < |s.pcs| && ThreadAt(c, s, t) && ThreadAt(c, s, u)
    requires Carries(s.pcs[t], h) && Carries(s.pcs[u], k) && s.modules[h] == s.modules[k]
    ensures h == k
  {
    CarriedIsMine(c, s, t);
    CarriedIsMine(c, s, u);
    hide ThreadAt;
    TwoThreads(c, s, t, u);
  }

  /** Losing a module leaves the device without a function, so a caller that waited loads the same image again. */
  lemma LostModuleIsLoadedAgain(c: Config, s: State, t: nat, u: nat) returns (states: seq<State>)
    requires Inv(c, s) && t < |s.pcs| && u < |s.pcs| && t != u && c.calls[t] == c.calls[u]
    requires s.pcs[t].GetFunction? && s.pcs[u].WantWriter? && !Held(c, s, u, CacheReader)
    ensures |states| == 6 && states[0] == s && Steps(c, states, [t, u, u, u, u], [CannotOpen, Works, Works, Works, Works])
    ensures states[5].modules == s.modules + [c.calls[t]]
    ensures s.pcs[t].mod < |s.modules| && s.modules[s.pcs[t].mod] == c.calls[t]
  {
    hide Inv, Step, ThreadOk, Holds;
    var s1 := LookupFails(c, s, t, u);
    var s2 := Moves(c, s1, u, Recheck);
    var s3 := Moves(c, s2, u, CheckLoaded);
    var s4 := Moves(c, s3, u, LoadModule);
    var s5 := Loads(c, s4, u);
    states := [s, s1, s2, s3, s4, s5];
  }

  lemma LookupFails(c: Config, s: State, t: nat, u: nat) returns (s': State)
    requires Inv(c, s) && t < |s.pcs| && u < |s.pcs| && t != u && c.calls[t] == c.calls[u]
    requires s.pcs[t].GetFunction? && s.pcs[u].WantWriter? && !Held(c, s, u, CacheReader)
    ensures Step(c, s, s', t, CannotOpen) && Shaped(c, s') && |s'.pcs| == |s.pcs|
    ensures s'.modules == s.modules && s'.objs == s.objs && s'.pcs[u] == WantWriter
    ensures s.pcs[t].mod < |s.modules| && s.modules[s.pcs[t].mod] == c.calls[t]
    ensures var obj := s.objs[c.calls[t].obj];
      c.calls[t].dev !in obj.funcache && obj.kernelLoaded && obj.essentials.Image?
    ensures !Held(c, s', u, CacheReader) && !Held(c, s', u, CacheWriter)
  {
    assert ThreadAt(c, s, t);
    NobodyElseWrites(c, s, t);
    hide Inv, OpenStep, ThreadOk, Held;
    s' := s.(leaked := s.leaked + {s.pcs[t].mod}, pcs := s.pcs[t := Threw]);
    assert s.objs[c.calls[t].obj := s.objs[c.calls[t].obj]] == s.objs;
    LocksFree(c, s, s', t, u);
  }

  lemma LocksFree(c: Config, s: State, s': State, t: nat, u: nat)
    requires Shaped(c, s) && t < |s.pcs| && u < |s.pcs| && t != u && c.calls[t] == c.calls[u]
    requires s' == s.(leaked := s'.leaked, pcs := s.pcs[t := Threw]) && !Held(c, s, u, CacheReader)
    requires forall v :: 0 <= v < |s.pcs| && v != t && c.calls[v].obj == c.calls[t].obj ==> !Holds(s.pcs[v], CacheWriter)
    ensures !Held(c, s', u, CacheReader) && !Held(c, s', u, CacheWriter)
  {
  }

  /** The writer's lock, the second look, and the loaded flag: steps that only move. */
  lemma Moves(c: Config, s: State, u: nat, pc: Pc) returns (s': State)
    requires Shaped(c, s) && u < |s.pcs|
    requires var obj := s.objs[c.calls[u].obj]; c.calls[u].dev !in obj.funcache && obj.kernelLoaded
    requires || (s.pcs[u].WantWriter? && pc == Recheck && !Held(c, s, u, CacheReader) && !Held(c, s, u, CacheWriter))
             || (s.pcs[u].Recheck? && pc == CheckLoaded) || (s.pcs[u].CheckLoaded? && pc == LoadModule)
    ensures s' == s.(pcs := s.pcs[u := pc]) && Step(c, s, s', u, Works)
  {
    s' := s.(pcs := s.pcs[u := pc]);
    assert s.objs[c.calls[u].obj := s.objs[c.calls[u].obj]] == s.objs;
    hide OpenStep, Held;
  }

  lemma Loads(c: Config, s: State, u: nat) returns (s': State)
    requires Shaped(c, s) && u < |s.pcs| && s.pcs[u].LoadModule? && s.objs[c.calls[u].obj].essentials.Image?
    ensures Step(c, s, s', u, Works) && s'.modules == s.modules + [c.calls[u]]
  {
    s' := s.(modules := s.modules + [c.calls[u]], pcs := s.pcs[u := GetFunction(|s.modules|)]);
    assert s.objs[c.calls[u].obj := s.objs[c.calls[u].obj]] == s.objs;
    hide OpenStep, Held;
  }

  lemma NobodyElseWrites(c: Config, s: State, t: nat)
    requires Shaped(c, s) && Exclusion(c, s) && t < |s.pcs| && Holds(s.pcs[t], CacheWriter)
    ensures forall v :: 0 <= v < |s.pcs| && v != t && c.calls[v].obj == c.calls[t].obj ==> !Holds(s.pcs[v], CacheWriter)
  {
  }

  // ---------------------------------------------------------------- what a caller gets

  /** In every reachable state: a returned function is the cached one, loaded for this call from the image the
      archive holds for this object; null is returned only once the object is known to have no image. */
  lemma ReturnedFunction(c: Config, states: seq<State>, movers: seq<nat>, choices: seq<Choice>, i: nat, t: nat)
    requires Run(c, states, movers, choices) && i < |states| && t < |c.calls|
    ensures Shaped(c, states[i])
    ensures var s, call := states[i], c.calls[t];
      var obj, info := s.objs[call.obj], c.infos[call.obj];
      s.pcs[t].Finished? ==>
        obj.kernelLoaded && EssentialsSet(info, obj) &&
        match s.pcs[t].func
        case None => obj.essentials.NullImage?
        case Some(h) =>
          && call.dev in obj.funcache && obj.funcache[call.dev] == h && h < |s.modules| && s.modules[h] == call
          && obj.essentials.Image? && obj.packedKernel.Some? && RightImage(c, info, obj.packedKernel.value)
  {
    hide Run, RightImage, FilterOf, RegistryOk, BadHidden, Exclusion;
    RunInv(c, states, movers, choices, i);
    var s := states[i];
    assert ThreadAt(c, s, t) && ObjOk(c.infos[c.calls[t].obj], c, c.calls[t].obj, s.objs[c.calls[t].obj], s.modules, s.leaked);
  }

  /** End to end: if the archive on disk was written with this object's image in it, then what a function was
      loaded from is the kernel packed first under the object's name. */
  lemma FunctionComesFromItsKernel(c: Config, states: seq<State>, movers: seq<nat>, choices: seq<Choice>, i: nat, t: nat,
                                   es: seq<Entry>, j: nat, ss: seq<Source>, ignoreJson: bool, compress: Compressor)
    requires Run(c, states, movers, choices) && i < |states| && t < |c.calls|
    requires Shaped(c, states[i]) && states[i].pcs[t].Finished? && states[i].pcs[t].func.Some?
    requires Inverse(compress, c.decompress) && ArchiveFits(es) && ImageFits(ss, ignoreJson)
    requires j < |es| && FirstOfItsName(es, j) && es[j].data == AksImage(ss, ignoreJson, compress)
    requires var info := c.infos[c.calls[t].obj]; c.disk(info.zip) == Some(ZipImage(es)) && info.entry == es[j].name
    ensures var obj, n := states[i].objs[c.calls[t].obj], FirstNamed(ss, 0, c.infos[c.calls[t].obj].stem);
      && obj.packedKernel.Some? && obj.essentials.Image? && n < |ss| && ss[n].blob != []
      && var content := obj.packedKernel.value.content;
         && obj.essentials.start + obj.essentials.size <= |content|
         && content[obj.essentials.start..obj.essentials.start + obj.essentials.size] == ss[n].blob
  {
    hide Run, ZipImage, ArchiveFits, ImageFits, AksImage, Inverse, FirstOfItsName, EssentialsSet, RightImage;
    ReturnedFunction(c, states, movers, choices, i, t);
    ImageIsItsKernel(c, c.infos[c.calls[t].obj], states[i].objs[c.calls[t].obj], es, j, ss, ignoreJson, compress);
  }

  lemma ImageIsItsKernel(c: Config, info: Info, obj: Obj, es: seq<Entry>, j: nat, ss: seq<Source>, ignoreJson: bool, compress: Compressor)
    requires EssentialsSet(info, obj) && obj.essentials.Image? && obj.packedKernel.Some? && RightImage(c, info, obj.packedKernel.value)
    requires Inverse(compress, c.decompress) && ArchiveFits(es) && ImageFits(ss, ignoreJson)
    requires j < |es| && FirstOfItsName(es, j) && es[j].data == AksImage(ss, ignoreJson, compress)
    requires c.disk(info.zip) == Some(ZipImage(es)) && info.entry == es[j].name
    ensures var n := FirstNamed(ss, 0, info.stem);
      && n < |ss| && ss[n].blob != []
      && var content := obj.packedKernel.value.content;
         && obj.essentials.start + obj.essentials.size <= |content|
         && content[obj.essentials.start..obj.essentials.start + obj.essentials.size] == ss[n].blob
  {
    hide ZipImage, ArchiveFits, ImageFits, AksImage, InnerMap, ListZip, OpenImage, FilterIn, WellPlaced, Inverse, FirstOfItsName;
    StoredKernelComesBack(es, j, ss, ignoreJson, compress, c.decompress, info.stem);
  }

  // ---------------------------------------------------------------- deadlock and termination

  /** Every thread that has not returned waits for a lock that some thread able to move holds, or can move. */
  lemma SomeoneCanMove(c: Config, s: State, t: nat) returns (mover: nat)
    requires Inv(c, s) && t < |s.pcs| && !Over(s.pcs[t])
    ensures mover < |s.pcs| && Enabled(c, s, mover)
  {
    hide RegistryOk, ObjsOk, ThreadsOk, BadHidden, LeaksLogged;
    if v :| 0 <= v < |s.pcs| && HoldsRegistry(s.pcs[v]) {
      mover := v;
    } else if v :| 0 <= v < |s.pcs| && Holds(s.pcs[v], PackedWriter) {
      mover := v;
    } else if v :| 0 <= v < |s.pcs| && (Holds(s.pcs[v], CacheWriter) || Holds(s.pcs[v], CacheReader)) {
      mover := v;
    } else {
      mover := t;
    }
  }

  predicate HoldsRegistry(pc: Pc) { Holds(pc, RegistryReader) || Holds(pc, RegistryWriter) }

  /** Steps a thread may still take; n bounds the entries of its archive. */
  function StepsLeft(pc: Pc, n: nat): nat {
    match pc
    case Start => n + 21
    case Peek => n + 20
    case WantWriter => n + 19
    case Recheck => n + 18
    case CheckLoaded => n + 17
    case WantPacked => n + 16
    case CheckAgain => n + 15
    case WantReader => n + 14
    case FastPath => n + 13
    case WantRegistry => n + 12
    case Populate => n + 11
    case Staging(staging, k) => 10 + if k <= n then n - k else 0
    case Find => 9
    case Construct => 8
    case CheckStatus => 7
    case Returned(image) => 6
    case Filter => 5
    case SetLoaded => 4
    case LoadModule => 3
    case GetFunction(h) => 2
    case Emplace(h) => 1
    case Finished(func) => 0
    case Threw => 0
  }

  ghost function ThreadMeasure(c: Config, s: State, t: nat): nat
    requires Shaped(c, s) && t < |s.pcs|
  {
    StepsLeft(s.pcs[t], |Listed(c, c.infos[c.calls[t].obj].zip).visits|)
  }

  /** The steps the first n threads may still take. */
  ghost function Measure(c: Config, s: State, n: nat): nat
    requires Shaped(c, s) && n <= |s.pcs|
  {
    if n == 0 then 0 else Measure(c, s, n - 1) + ThreadMeasure(c, s, n - 1)
  }

  lemma MoverCloser(c: Config, s: State, t: nat, choice: Choice)
    requires Inv(c, s) && t < |s.pcs| && Enabled(c, s, t)
    ensures var n := |Listed(c, c.infos[c.calls[t].obj].zip).visits|;
      StepsLeft(Act(c, s, t, choice).pc, n) < StepsLeft(s.pcs[t], n)
  {
    var call, pc := c.calls[t], s.pcs[t];
    var obj, info := s.objs[call.obj], c.infos[call.obj];
    var e := Effect(pc, obj, s.registry, s.modules, s.leaked);
    assert ThreadAt(c, s, t);
    hide Inv, Enabled, Held, ObjectStep, OpenStep;
    if Opening(pc) { OpenCloser(c, call, info, pc, obj, e, choice); } else { ObjectCloser(c, call, info, pc, obj, e, choice); }
  }

  lemma OpenCloser(c: Config, call: Call, info: Info, pc: Pc, obj: Obj, e: Effect, choice: Choice)
    requires Opening(pc) && e.pc == pc && ThreadOk(c, call, info, pc, obj, e.registry, e.modules, e.leaked)
    ensures var n := |Listed(c, info.zip).visits|;
      StepsLeft(OpenStep(c, info, pc, e.registry, e, choice).pc, n) < StepsLeft(pc, n)
  {
    hide Listed, OpenAt, Unconstructed, WithPtr, InnerMap, RightImage, EssentialsSet, Holds;
  }

  lemma ObjectCloser(c: Config, call: Call, info: Info, pc: Pc, obj: Obj, e: Effect, choice: Choice)
    requires !Opening(pc) && !Over(pc) && e.pc == pc && ThreadOk(c, call, info, pc, obj, e.registry, e.modules, e.leaked)
    ensures var n := |Listed(c, info.zip).visits|;
      StepsLeft(ObjectStep(c, call, info, pc, obj, e, choice).pc, n) < StepsLeft(pc, n)
  {
    hide Listed, FilterOf, RightImage, InnerMap;
  }

  lemma {:induction false} MeasureDrops(c: Config, s: State, s': State, t: nat, n: nat)
    requires Shaped(c, s) && Shaped(c, s') && t < n <= |s.pcs|
    requires forall u :: 0 <= u < |s.pcs| && u != t ==> s'.pcs[u] == s.pcs[u]
    requires ThreadMeasure(c, s', t) < ThreadMeasure(c, s, t)
    ensures Measure(c, s', n) < Measure(c, s, n)
  {
    hide Listed, StepsLeft;
    if t < n - 1 { MeasureDrops(c, s, s', t, n - 1); } else { MeasureSame(c, s, s', n - 1); }
  }

  lemma {:induction false} MeasureSame(c: Config, s: State, s': State, n: nat)
    requires Shaped(c, s) && Shaped(c, s') && n <= |s.pcs| && forall u :: 0 <= u < n ==> s'.pcs[u] == s.pcs[u]
    ensures Measure(c, s', n) == Measure(c, s, n)
  {
    hide Listed, StepsLeft;
    if n > 0 { MeasureSame(c, s, s', n - 1); }
  }

  /** Every step uses up one of the steps left. */
  lemma StepsTerminate(c: Config, s: State, s': State, t: nat, choice: Choice)
    requires Inv(c, s) && Step(c, s, s', t, choice)
    ensures Shaped(c, s') && Measure(c, s', |s'.pcs|) < Measure(c, s, |s.pcs|)
  {
    MoverCloser(c, s, t, choice);
    hide Act, Inv, Enabled, Listed, StepsLeft, Measure;
    MeasureDrops(c, s, s', t, |s.pcs|);
  }

  lemma {:induction false} RunsAreShort(c: Config, states: seq<State>, movers: seq<nat>, choices: seq<Choice>, n: nat)
    requires Run(c, states, movers, choices) && n <= |movers|
    ensures Shaped(c, states[0]) && Shaped(c, states[n])
    ensures n + Measure(c, states[n], |c.calls|) <= Measure(c, states[0], |c.calls|)
  {
    hide Inv, Step, Init, Measure;
    RunInv(c, states, movers, choices, n);
    RunInv(c, states, movers, choices, 0);
    if n > 0 {
      RunInv(c, states, movers, choices, n - 1);
      RunsAreShort(c, states, movers, choices, n - 1);
      StepsTerminate(c, states[n - 1], states[n], movers[n - 1], choices[n - 1]);
    }
  }
}
