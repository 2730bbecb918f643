/** The dynamic persistent forward kernel: any number of workgroups draw tile ids from one atomic counter,
    in any interleaving. A workgroup whose flag has been cleared by an all-masked tile goes on drawing
    tiles without computing them. */
module PersistentTiles {
  import opened Arith

  /** Fetch: about to draw a tile. Work: holds a tile below the total. Done: drew an id past the end. */
  datatype Pc = Fetch | Work(tile: nat) | Done

  /** cont is continue_condition; drawn and written are the tiles this workgroup got and stored, in order. */
  datatype Wg = Wg(pc: Pc, cont: bool, drawn: seq<nat>, written: seq<nat>)

  datatype State = State(counter: nat, wgs: seq<Wg>)

  /** total tiles; exits(t) holds for the tiles that take the early exit. */
  datatype Launch = Launch(total: nat, exits: nat -> bool)

  ghost predicate Init(workgroups: nat, s: State) {
    s == State(0, seq(workgroups, _ => Wg(Fetch, true, [], [])))
  }

  /** tile_id = counter.atomic_add(1), then the loop test */
  predicate FetchStep(l: Launch, s: State, s': State, w: nat) {
    && w < |s.wgs| && s.wgs[w].pc.Fetch?
    && s' == State(s.counter + 1, s.wgs[w :=
               if s.counter < l.total then s.wgs[w].(pc := Work(s.counter), drawn := s.wgs[w].drawn + [s.counter])
               else s.wgs[w].(pc := Done)])
  }

  /** The loop body: compute and store unless the flag is cleared; an exiting tile stores and clears it. */
  predicate WorkStep(l: Launch, s: State, s': State, w: nat) {
    && w < |s.wgs| && s.wgs[w].pc.Work?
    && var g := s.wgs[w];
       s' == s.(wgs := s.wgs[w :=
               Wg(Fetch, g.cont && !l.exits(g.pc.tile), g.drawn, if g.cont then g.written + [g.pc.tile] else g.written)])
  }

  predicate Step(l: Launch, s: State, s': State, w: nat) {
    FetchStep(l, s, s', w) || WorkStep(l, s, s', w)
  }

  /** A run, as the states it goes through and the workgroup that moves in each step. */
  ghost predicate Run(l: Launch, workgroups: nat, states: seq<State>, movers: seq<nat>) {
    && |states| == |movers| + 1 && Init(workgroups, states[0])
    && forall i :: 0 <= i < |movers| ==> Step(l, states[i], states[i + 1], movers[i])
  }

  // ---------------------------------------------------------------- what every step keeps

  /** A workgroup writes the tiles it draws up to and including the first one that exits. */
  function UpToFirstExit(l: Launch, tiles: seq<nat>): seq<nat> {
    if tiles == [] then []
    else
      var before := UpToFirstExit(l, tiles[..|tiles| - 1]);
      if exists i :: 0 <= i < |tiles| - 1 && l.exits(tiles[i]) then before else before + [tiles[|tiles| - 1]]
  }

  predicate SomeExit(l: Launch, tiles: seq<nat>) { exists i :: 0 <= i < |tiles| && l.exits(tiles[i]) }

  /** The tiles a workgroup has finished with. */
  function Finished(g: Wg): seq<nat> {
    if g.pc.Work? && |g.drawn| > 0 then g.drawn[..|g.drawn| - 1] else g.drawn
  }

  ghost predicate WgInv(l: Launch, counter: nat, g: Wg) {
    && (forall i, j :: 0 <= i < j < |g.drawn| ==> g.drawn[i] < g.drawn[j])
    && (forall i :: 0 <= i < |g.drawn| ==> g.drawn[i] < counter && g.drawn[i] < l.total)
    && (g.pc.Work? ==> |g.drawn| > 0 && g.drawn[|g.drawn| - 1] == g.pc.tile)
    && (g.pc.Done? ==> counter > l.total)
    && g.cont == !SomeExit(l, Finished(g))
    && g.written == UpToFirstExit(l, Finished(g))
  }

  predicate Drew(g: Wg, t: nat) { t in g.drawn }

  /** Workgroups that have finished; each of them has drawn one id past the end. */
  function DoneCount(wgs: seq<Wg>): nat {
    if wgs == [] then 0 else DoneCount(wgs[..|wgs| - 1]) + if wgs[|wgs| - 1].pc.Done? then 1 else 0
  }

  ghost predicate DrawnBySome(wgs: seq<Wg>, t: nat) { exists w :: 0 <= w < |wgs| && Drew(wgs[w], t) }

  ghost predicate AllWgInv(l: Launch, s: State) { forall w :: 0 <= w < |s.wgs| ==> WgInv(l, s.counter, s.wgs[w]) }

  ghost predicate DrawnOnce(wgs: seq<Wg>) {
    forall w, w', t :: 0 <= w < w' < |wgs| && Drew(wgs[w], t) ==> !Drew(wgs[w'], t)
  }

  ghost predicate AllDrawn(l: Launch, s: State) {
    forall t {:trigger DrawnBySome(s.wgs, t)} :: 0 <= t < s.counter && t < l.total ==> DrawnBySome(s.wgs, t)
  }

  ghost predicate CounterExact(l: Launch, s: State) {
    if s.counter <= l.total then DoneCount(s.wgs) == 0 else s.counter == l.total + DoneCount(s.wgs)
  }

  ghost predicate Inv(l: Launch, s: State) {
    AllWgInv(l, s) && DrawnOnce(s.wgs) && AllDrawn(l, s) && CounterExact(l, s)
  }

  lemma InitInv(l: Launch, workgroups: nat, s: State)
    requires Init(workgroups, s)
    ensures Inv(l, s)
  {
    NoneDone(s.wgs);
  }

  lemma {:induction false} NoneDone(wgs: seq<Wg>)
    requires forall w :: 0 <= w < |wgs| ==> !wgs[w].pc.Done?
    ensures DoneCount(wgs) == 0
  {
    if wgs != [] { NoneDone(wgs[..|wgs| - 1]); }
  }

  lemma {:induction false} DoneCountUpdate(wgs: seq<Wg>, w: nat, g: Wg)
    requires w < |wgs|
    ensures DoneCount(wgs[w := g]) == DoneCount(wgs) - (if wgs[w].pc.Done? then 1 else 0) + (if g.pc.Done? then 1 else 0)
  {
    var n := |wgs| - 1;
    if w < n {
      DoneCountUpdate(wgs[..n], w, g);
      assert wgs[w := g][..n] == wgs[..n][w := g];
    } else {
      assert wgs[w := g][..n] == wgs[..n];
    }
  }

  lemma {:induction false} DoneCountBounds(wgs: seq<Wg>)
    ensures DoneCount(wgs) <= |wgs|
    ensures DoneCount(wgs) == |wgs| <==> forall w :: 0 <= w < |wgs| ==> wgs[w].pc.Done?
  {
    if wgs != [] {
      var n := |wgs| - 1;
      DoneCountBounds(wgs[..n]);
      assert forall w :: 0 <= w < n ==> wgs[..n][w] == wgs[w];
    }
  }

  lemma StepInv(l: Launch, s: State, s': State, w: nat)
    requires Inv(l, s) && Step(l, s, s', w)
    ensures Inv(l, s') && |s'.wgs| == |s.wgs|
  {
    if FetchStep(l, s, s', w) { FetchInv(l, s, s', w); } else { WorkInv(l, s, s', w); }
  }

  lemma WgInvGrows(l: Launch, c: nat, c': nat, g: Wg)
    requires WgInv(l, c, g) && c <= c'
    ensures WgInv(l, c', g)
  {
  }

  /** Only workgroup w changed, and its own invariant holds. */
  lemma OthersKeep(l: Launch, s: State, s': State, w: nat)
    requires AllWgInv(l, s) && w < |s.wgs| == |s'.wgs| && s.counter <= s'.counter
    requires s'.wgs == s.wgs[w := s'.wgs[w]] && WgInv(l, s'.counter, s'.wgs[w])
    ensures AllWgInv(l, s')
  {
    hide WgInv;
    forall v | 0 <= v < |s'.wgs| ensures WgInv(l, s'.counter, s'.wgs[v]) {
      if v != w { WgInvGrows(l, s.counter, s'.counter, s.wgs[v]); }
    }
  }

  lemma FetchInv(l: Launch, s: State, s': State, w: nat)
    requires Inv(l, s) && FetchStep(l, s, s', w)
    ensures Inv(l, s')
  {
    DoneCountUpdate(s.wgs, w, s'.wgs[w]);
    FetchDraws(l, s, s', w);
    FetchedWg(l, s.counter, s.wgs[w], s'.wgs[w]);
    OthersKeep(l, s, s', w);
    CounterAfterFetch(l, s, s', w);
  }

  lemma CounterAfterFetch(l: Launch, s: State, s': State, w: nat)
    requires CounterExact(l, s) && FetchStep(l, s, s', w)
    ensures CounterExact(l, s')
  {
    hide Drew;
    DoneCountUpdate(s.wgs, w, s'.wgs[w]);
  }

  lemma FetchedWg(l: Launch, c: nat, g: Wg, g': Wg)
    requires WgInv(l, c, g) && g.pc.Fetch?
    requires g' == if c < l.total then g.(pc := Work(c), drawn := g.drawn + [c]) else g.(pc := Done)
    ensures WgInv(l, c + 1, g')
  {
    hide UpToFirstExit, SomeExit;
    if c < l.total { assert g'.drawn[..|g'.drawn| - 1] == g.drawn; }
  }

  /** A fetch gives the next tile, if there is one, to exactly one workgroup. */
  lemma FetchDraws(l: Launch, s: State, s': State, w: nat)
    requires AllWgInv(l, s) && DrawnOnce(s.wgs) && AllDrawn(l, s) && FetchStep(l, s, s', w)
    ensures DrawnOnce(s'.wgs) && AllDrawn(l, s')
  {
    hide UpToFirstExit, SomeExit, Finished;
    forall v, t: nat | 0 <= v < |s.wgs|
      ensures Drew(s'.wgs[v], t) <==> Drew(s.wgs[v], t) || (v == w && t == s.counter && t < l.total)
      ensures Drew(s.wgs[v], t) ==> t < s.counter
    {
      assert WgInv(l, s.counter, s.wgs[v]);
    }
    forall t: nat | t < s'.counter && t < l.total ensures DrawnBySome(s'.wgs, t) {
      if t == s.counter {
        assert Drew(s'.wgs[w], t);
      } else {
        assert DrawnBySome(s.wgs, t);
        var v :| 0 <= v < |s.wgs| && Drew(s.wgs[v], t);
        assert Drew(s'.wgs[v], t);
      }
    }
  }

  lemma WorkInv(l: Launch, s: State, s': State, w: nat)
    requires Inv(l, s) && WorkStep(l, s, s', w)
    ensures Inv(l, s')
  {
    FinishTile(l, s.counter, s.wgs[w], s'.wgs[w]);
    OthersKeep(l, s, s', w);
    hide WgInv, DoneCount, Drew, DrawnOnce, DrawnBySome;
    DoneCountUpdate(s.wgs, w, s'.wgs[w]);
    SameDrawn(s.wgs, s'.wgs);
    forall t: nat | t < s'.counter && t < l.total ensures DrawnBySome(s'.wgs, t) {
      assert DrawnBySome(s.wgs, t);
    }
  }

  lemma SameDrawn(a: seq<Wg>, b: seq<Wg>)
    requires |a| == |b| && forall w :: 0 <= w < |a| ==> a[w].drawn == b[w].drawn
    ensures DrawnOnce(a) ==> DrawnOnce(b)
    ensures forall t {:trigger DrawnBySome(b, t)} :: DrawnBySome(a, t) ==> DrawnBySome(b, t)
  {
    forall w, t: nat | 0 <= w < |a| ensures Drew(a[w], t) == Drew(b[w], t) { }
    forall t: nat | DrawnBySome(a, t) ensures DrawnBySome(b, t) {
      var w :| 0 <= w < |a| && Drew(a[w], t);
      assert Drew(b[w], t);
    }
  }

  lemma FinishTile(l: Launch, c: nat, g: Wg, g': Wg)
    requires WgInv(l, c, g) && g.pc.Work?
    requires g' == Wg(Fetch, g.cont && !l.exits(g.pc.tile), g.drawn, if g.cont then g.written + [g.pc.tile] else g.written)
    ensures WgInv(l, c, g')
  {
    var n := |g.drawn| - 1;
    assert g.drawn == g.drawn[..n] + [g.pc.tile];
    OneMoreTile(l, g.drawn[..n], g.pc.tile);
  }

  lemma OneMoreTile(l: Launch, tiles: seq<nat>, t: nat)
    ensures SomeExit(l, tiles + [t]) <==> SomeExit(l, tiles) || l.exits(t)
    ensures UpToFirstExit(l, tiles + [t]) == if SomeExit(l, tiles) then UpToFirstExit(l, tiles) else UpToFirstExit(l, tiles) + [t]
  {
    var more := tiles + [t];
    assert more[..|more| - 1] == tiles && more[|tiles|] == t;
    if SomeExit(l, tiles) {
      var i :| 0 <= i < |tiles| && l.exits(tiles[i]);
      assert l.exits(more[i]);
    }
    if l.exits(t) { assert l.exits(more[|tiles|]); }
    assert forall i :: 0 <= i < |tiles| ==> more[i] == tiles[i];
  }

  lemma {:induction false} RunInv(l: Launch, workgroups: nat, states: seq<State>, movers: seq<nat>, i: nat)
    requires Run(l, workgroups, states, movers) && i < |states|
    ensures Inv(l, states[i]) && |states[i].wgs| == workgroups
  {
    if i == 0 {
      InitInv(l, workgroups, states[0]);
    } else {
      RunInv(l, workgroups, states, movers, i - 1);
      StepInv(l, states[i - 1], states[i], movers[i - 1]);
    }
  }

  // ---------------------------------------------------------------- termination

  /** Two steps per tile not yet drawn, one per tile in flight, one per workgroup not yet done. */
  function Measure(l: Launch, s: State): int {
    2 * (if s.counter < l.total then l.total - s.counter else 0) + WorkCount(s.wgs) + |s.wgs| - DoneCount(s.wgs)
  }

  function WorkCount(wgs: seq<Wg>): nat {
    if wgs == [] then 0 else WorkCount(wgs[..|wgs| - 1]) + if wgs[|wgs| - 1].pc.Work? then 1 else 0
  }

  lemma {:induction false} WorkCountUpdate(wgs: seq<Wg>, w: nat, g: Wg)
    requires w < |wgs|
    ensures WorkCount(wgs[w := g]) == WorkCount(wgs) - (if wgs[w].pc.Work? then 1 else 0) + (if g.pc.Work? then 1 else 0)
  {
    var n := |wgs| - 1;
    if w < n {
      WorkCountUpdate(wgs[..n], w, g);
      assert wgs[w := g][..n] == wgs[..n][w := g];
    } else {
      assert wgs[w := g][..n] == wgs[..n];
    }
  }

  /** Every step makes the measure smaller, and a step is possible until all workgroups are done. */
  lemma StepsTerminate(l: Launch, s: State, s': State, w: nat)
    requires Step(l, s, s', w)
    ensures 0 <= Measure(l, s') < Measure(l, s)
  {
    DoneCountUpdate(s.wgs, w, s'.wgs[w]);
    WorkCountUpdate(s.wgs, w, s'.wgs[w]);
    DoneCountBounds(s'.wgs);
  }

  lemma NotDoneCanStep(l: Launch, s: State, w: nat) returns (s': State)
    requires w < |s.wgs| && !s.wgs[w].pc.Done?
    ensures Step(l, s, s', w)
  {
    var g := s.wgs[w];
    if g.pc.Fetch? {
      s' := State(s.counter + 1, s.wgs[w :=
              if s.counter < l.total then g.(pc := Work(s.counter), drawn := g.drawn + [s.counter]) else g.(pc := Done)]);
    } else {
      s' := s.(wgs := s.wgs[w :=
              Wg(Fetch, g.cont && !l.exits(g.pc.tile), g.drawn, if g.cont then g.written + [g.pc.tile] else g.written)]);
    }
  }

  // ---------------------------------------------------------------- results for finished runs

  ghost predicate AllDone(s: State) { forall w :: 0 <= w < |s.wgs| ==> s.wgs[w].pc.Done? }

  predicate Wrote(g: Wg, t: nat) { t in g.written }

  ghost predicate WrittenBySome(s: State, t: nat) { exists w :: 0 <= w < |s.wgs| && Wrote(s.wgs[w], t) }

  /** In every interleaving each tile is dispensed to exactly one workgroup, nothing else is dispensed, and
      the counter ends at the number of tiles plus the number of workgroups. */
  lemma EveryTileDispensedOnce(l: Launch, workgroups: nat, states: seq<State>, movers: seq<nat>, t: nat)
    requires workgroups >= 1 && Run(l, workgroups, states, movers) && AllDone(states[|states| - 1])
    ensures var s := states[|states| - 1];
      && |s.wgs| == workgroups && s.counter == l.total + workgroups
      && (t < l.total <==> DrawnBySome(s.wgs, t))
      && (forall w, w' :: 0 <= w < workgroups && 0 <= w' < workgroups && Drew(s.wgs[w], t) && Drew(s.wgs[w'], t) ==> w == w')
  {
    var s := states[|states| - 1];
    RunInv(l, workgroups, states, movers, |states| - 1);
    DoneCountBounds(s.wgs);
    assert t < l.total ==> DrawnBySome(s.wgs, t);
    if DrawnBySome(s.wgs, t) {
      var w :| 0 <= w < |s.wgs| && Drew(s.wgs[w], t);
      assert WgInv(l, s.counter, s.wgs[w]);
    }
  }

  /** A dispensed tile is written exactly when the workgroup that drew it met no exiting tile before it. */
  lemma TileWrittenExactly(l: Launch, workgroups: nat, states: seq<State>, movers: seq<nat>, w: nat, k: nat)
    requires Run(l, workgroups, states, movers) && AllDone(states[|states| - 1]) && w < workgroups
    requires |states[|states| - 1].wgs| == workgroups && k < |states[|states| - 1].wgs[w].drawn|
    ensures var s := states[|states| - 1];
      WrittenBySome(s, s.wgs[w].drawn[k]) <==> !SomeExit(l, s.wgs[w].drawn[..k])
  {
    var s := states[|states| - 1];
    var t := s.wgs[w].drawn[k];
    RunInv(l, workgroups, states, movers, |states| - 1);
    assert Drew(s.wgs[w], t);
    forall v | 0 <= v < workgroups ensures Wrote(s.wgs[v], t) ==> v == w {
      assert WgInv(l, s.counter, s.wgs[v]);
      WrittenAreDrawn(l, s.wgs[v].drawn, t);
      if Wrote(s.wgs[v], t) { assert Drew(s.wgs[v], t); }
    }
    assert WgInv(l, s.counter, s.wgs[w]);
    WrittenIffNoExit(l, s.wgs[w].drawn, k);
    assert WrittenBySome(s, t) <==> Wrote(s.wgs[w], t);
  }

  lemma {:induction false} WrittenAreDrawn(l: Launch, tiles: seq<nat>, t: nat)
    ensures t in UpToFirstExit(l, tiles) ==> t in tiles
  {
    if tiles != [] {
      WrittenAreDrawn(l, tiles[..|tiles| - 1], t);
      assert tiles == tiles[..|tiles| - 1] + [tiles[|tiles| - 1]];
    }
  }

  lemma {:induction false} WrittenIffNoExit(l: Launch, tiles: seq<nat>, k: nat)
    requires k < |tiles|
    requires forall i, j :: 0 <= i < j < |tiles| ==> tiles[i] < tiles[j]
    ensures tiles[k] in UpToFirstExit(l, tiles) <==> !SomeExit(l, tiles[..k])
  {
    var n := |tiles| - 1;
    var front := tiles[..n];
    if k < n {
      WrittenIffNoExit(l, front, k);
      assert front[..k] == tiles[..k];
    } else {
      WrittenAreDrawn(l, front, tiles[n]);
      assert forall i :: 0 <= i < n ==> front[i] != tiles[n];
    }
  }

  // ---------------------------------------------------------------- when is everything written

  ghost predicate AllWritten(l: Launch, s: State) {
    forall t {:trigger WrittenBySome(s, t)} :: 0 <= t < l.total ==> WrittenBySome(s, t)
  }

  ghost predicate Finishes(l: Launch, workgroups: nat, states: seq<State>, movers: seq<nat>) {
    Run(l, workgroups, states, movers) && AllDone(states[|states| - 1])
  }

  /** Every schedule writes every tile exactly when no tile but the last one exits early. */
  lemma AllWrittenInEveryRunExactly(l: Launch, workgroups: nat)
    requires workgroups >= 1
    ensures (forall states, movers :: Finishes(l, workgroups, states, movers) ==> AllWritten(l, states[|states| - 1]))
       <==> (forall t: nat :: t + 1 < l.total ==> !l.exits(t))
  {
    if forall t: nat :: t + 1 < l.total ==> !l.exits(t) {
      forall states, movers | Finishes(l, workgroups, states, movers) ensures AllWritten(l, states[|states| - 1]) {
        LateExitsAreHarmless(l, workgroups, states, movers);
      }
    } else {
      var t: nat :| t + 1 < l.total && l.exits(t);
      var states, movers := ScheduleLosingATile(l, workgroups, t);
      assert Finishes(l, workgroups, states, movers);
    }
  }

  lemma LateExitsAreHarmless(l: Launch, workgroups: nat, states: seq<State>, movers: seq<nat>)
    requires workgroups >= 1 && Finishes(l, workgroups, states, movers)
    requires forall t: nat :: t + 1 < l.total ==> !l.exits(t)
    ensures AllWritten(l, states[|states| - 1])
  {
    var s := states[|states| - 1];
    forall t: nat | t < l.total ensures WrittenBySome(s, t) {
      EveryTileDispensedOnce(l, workgroups, states, movers, t);
      var w :| 0 <= w < |s.wgs| && Drew(s.wgs[w], t);
      var k :| 0 <= k < |s.wgs[w].drawn| && s.wgs[w].drawn[k] == t;
      TileWrittenExactly(l, workgroups, states, movers, w, k);
      RunInv(l, workgroups, states, movers, |states| - 1);
      assert WgInv(l, s.counter, s.wgs[w]);
      forall i | 0 <= i < k ensures !l.exits(s.wgs[w].drawn[..k][i]) {
        assert s.wgs[w].drawn[i] < s.wgs[w].drawn[k];
      }
    }
  }

  /** One workgroup draws tiles 0, 1, ... first; after tile t has cleared its flag it drops tile t + 1. */
  lemma ScheduleLosingATile(l: Launch, workgroups: nat, t: nat) returns (states: seq<State>, movers: seq<nat>)
    requires workgroups >= 1 && t + 1 < l.total && l.exits(t)
    ensures Finishes(l, workgroups, states, movers) && !WrittenBySome(states[|states| - 1], t + 1)
  {
    states, movers := SoloRun(l, workgroups, t + 2);
    var mid := |states| - 1;
    var drawn := states[mid].wgs[0].drawn;
    states, movers := FinishRun(l, workgroups, states, movers);
    DrawnGrows(l, workgroups, states, movers, mid, |states| - 1, 0);
    var s := states[|states| - 1];
    RunInv(l, workgroups, states, movers, |states| - 1);
    assert s.wgs[0].drawn[t] == t && s.wgs[0].drawn[t + 1] == t + 1;
    TileWrittenExactly(l, workgroups, states, movers, 0, t + 1);
    assert l.exits(s.wgs[0].drawn[..t + 1][t]);
    assert !WrittenBySome(s, t + 1);
  }

  lemma ExtendRun(l: Launch, workgroups: nat, states: seq<State>, movers: seq<nat>, w: nat)
      returns (states': seq<State>, movers': seq<nat>)
    requires Run(l, workgroups, states, movers) && w < |states[|states| - 1].wgs| && !states[|states| - 1].wgs[w].pc.Done?
    ensures Run(l, workgroups, states', movers') && states <= states' && |states'| == |states| + 1
    ensures Step(l, states[|states| - 1], states'[|states|], w)
  {
    var s' := NotDoneCanStep(l, states[|states| - 1], w);
    states', movers' := states + [s'], movers + [w];
    forall i | 0 <= i < |movers'| ensures Step(l, states'[i], states'[i + 1], movers'[i]) {
      if i < |movers| { assert Step(l, states[i], states[i + 1], movers[i]); }
    }
  }

  lemma {:induction false} SoloRun(l: Launch, workgroups: nat, k: nat) returns (states: seq<State>, movers: seq<nat>)
    requires workgroups >= 1 && k <= l.total
    ensures Run(l, workgroups, states, movers)
    ensures var s := states[|states| - 1];
      s.counter == k && |s.wgs| == workgroups && s.wgs[0].pc.Fetch? && |s.wgs[0].drawn| == k
      && forall i :: 0 <= i < k ==> s.wgs[0].drawn[i] == i
  {
    if k == 0 {
      states, movers := [State(0, seq(workgroups, _ => Wg(Fetch, true, [], [])))], [];
    } else {
      states, movers := SoloRun(l, workgroups, k - 1);
      states, movers := ExtendRun(l, workgroups, states, movers, 0);
      states, movers := ExtendRun(l, workgroups, states, movers, 0);
    }
  }

  lemma {:induction false} FinishRun(l: Launch, workgroups: nat, states: seq<State>, movers: seq<nat>)
      returns (states': seq<State>, movers': seq<nat>)
    requires Run(l, workgroups, states, movers)
    ensures Finishes(l, workgroups, states', movers') && states <= states'
    decreases Measure(l, states[|states| - 1])
  {
    var s := states[|states| - 1];
    if AllDone(s) {
      states', movers' := states, movers;
    } else {
      var w :| 0 <= w < |s.wgs| && !s.wgs[w].pc.Done?;
      states', movers' := ExtendRun(l, workgroups, states, movers, w);
      StepsTerminate(l, s, states'[|states|], w);
      states', movers' := FinishRun(l, workgroups, states', movers');
    }
  }

  lemma {:induction false} DrawnGrows(l: Launch, workgroups: nat, states: seq<State>, movers: seq<nat>, i: nat, j: nat, v: nat)
    requires Run(l, workgroups, states, movers) && i <= j < |states| && v < workgroups
    ensures |states[i].wgs| == |states[j].wgs| == workgroups
    ensures states[i].wgs[v].drawn <= states[j].wgs[v].drawn
    decreases j
  {
    RunInv(l, workgroups, states, movers, j);
    if i < j {
      DrawnGrows(l, workgroups, states, movers, i, j - 1, v);
      hide Inv, Init, Step;
      assert Step(l, states[j - 1], states[j - 1 + 1], movers[j - 1]);
      StepGrows(l, states[j - 1], states[j], movers[j - 1], v);
    }
  }

  lemma StepGrows(l: Launch, s: State, s': State, w: nat, v: nat)
    requires Step(l, s, s', w) && v < |s.wgs|
    ensures |s'.wgs| == |s.wgs| && s.wgs[v].drawn <= s'.wgs[v].drawn
  {
  }

  // ---------------------------------------------------------------- decoding a tile id

  datatype Tile = Tile(batch: int, headQ: int, qBlock: int)

  function TileDecode(tileId: nat, numTilesPerHead: nat, numHeadQ: nat): Tile
    requires numTilesPerHead >= 1 && numHeadQ >= 1
  {
    var numTilesPerSample := numTilesPerHead * numHeadQ;
    MulMono(1, numHeadQ, numTilesPerHead);
    Tile(tileId / numTilesPerSample,
         tileId % numTilesPerSample / numTilesPerHead,
         tileId % numTilesPerSample % numTilesPerHead)
  }

  function TileEncode(t: Tile, numTilesPerHead: nat, numHeadQ: nat): int {
    t.batch * (numTilesPerHead * numHeadQ) + (t.headQ * numTilesPerHead + t.qBlock)
  }

  predicate TileValid(t: Tile, numTilesPerHead: nat, numHeadQ: nat, batch: nat) {
    0 <= t.batch < batch && 0 <= t.headQ < numHeadQ && 0 <= t.qBlock < numTilesPerHead
  }

  /** Tile ids below the total and (batch, head, query block) triples are in bijection. */
  lemma TileDecodeIsBijection(tileId: nat, t: Tile, numTilesPerHead: nat, numHeadQ: nat, batch: nat)
    requires numTilesPerHead >= 1 && numHeadQ >= 1
    ensures var total := numTilesPerHead * numHeadQ * batch;
      && (tileId < total ==> TileValid(TileDecode(tileId, numTilesPerHead, numHeadQ), numTilesPerHead, numHeadQ, batch)
                             && TileEncode(TileDecode(tileId, numTilesPerHead, numHeadQ), numTilesPerHead, numHeadQ) == tileId)
      && (TileValid(t, numTilesPerHead, numHeadQ, batch) ==>
            0 <= TileEncode(t, numTilesPerHead, numHeadQ) < total
            && TileDecode(TileEncode(t, numTilesPerHead, numHeadQ), numTilesPerHead, numHeadQ) == t)
  {
    var per := numTilesPerHead * numHeadQ;
    MulMono(1, numHeadQ, numTilesPerHead);
    assert per == numHeadQ * numTilesPerHead && per * batch == batch * per;
    if tileId < per * batch {
      DivModBack(tileId, per);
      DivModBack(tileId % per, numTilesPerHead);
      QuotientBelow(tileId, per, batch);
      QuotientBelow(tileId % per, numTilesPerHead, numHeadQ);
    }
    if TileValid(t, numTilesPerHead, numHeadQ, batch) {
      var inner := t.headQ * numTilesPerHead + t.qBlock;
      DigitsBelow(t.headQ, t.qBlock, numTilesPerHead, numHeadQ);
      DigitsBelow(t.batch, inner, per, batch);
      DivMod(t.batch, inner, per);
      DivMod(t.headQ, t.qBlock, numTilesPerHead);
    }
  }
}
