/** When exactly the result of a foreground pipeline is its last stage's status. */
module JobControlResult {
  import opened Jobs
  import opened JobControl
  import opened JobControlInvariant
  import opened JobControlTheorems

  // v is reached from u by a run that never leaves the wait.
  ghost predicate Waits(u: World, v: World) {
    exists acts :: Runs(u, acts) && KeepsWaiting(u, acts) && After(u, acts) == v
  }

  lemma WaitsSelf(u: World)
    requires u.pc.Wait?
    ensures Waits(u, u)
  {
    assert Runs(u, []) && KeepsWaiting(u, []) && After(u, []) == u;
  }

  lemma WaitsStep(u: World, a: Action, v: World)
    requires u.pc.Wait? && Enabled(u, a) && Waits(Apply(u, a), v)
    ensures Waits(u, v)
  {
    var acts :| Runs(Apply(u, a), acts) && KeepsWaiting(Apply(u, a), acts) && After(Apply(u, a), acts) == v;
    var all := [a] + acts;
    assert all[0] == a && all[1..] == acts;
    assert Runs(u, all) && KeepsWaiting(u, all) && After(u, all) == v;
  }

  // ------------------------------------------------------------ the exact condition

  function LastOf(pids: seq<Pid>): Pid
    requires pids != []
  {
    pids[|pids| - 1]
  }

  // The wait is over, and its result is the status it collected for p.
  predicate ResultIsOf(v: World, p: Pid)
    requires v.pc.Wait? && Enabled(v, Step)
  {
    exists j :: 0 <= j < |v.pc.reaped| && v.pc.reaped[j].pid == p && Apply(v, Step).pc == TakeTty(StatusToCode(v.pc.reaped[j].status))
  }

  /** However the wait that starts here goes on, if it ends with ECHILD its result is the last
      stage's status. */
  ghost predicate AlwaysLastStages(w: World)
    requires w.pc.GiveTty? && w.pc.pids != []
  {
    ShellEnabled(w, Step) ==>
      forall v :: Waits(Apply(w, Step), v) && v.pc.Wait? && Enabled(v, Step) ==> ResultIsOf(v, LastOf(w.pc.pids))
  }

  predicate DeadWith(procs: map<Pid, Proc>, p: Pid, code: nat) {
    IsZombie(procs, p) && StatusToCode(procs[p].life.status) == code
  }

  // All stages are dead already, and with the last one's code.
  predicate DeadAlike(procs: map<Pid, Proc>, pids: seq<Pid>)
    requires pids != []
  {
    && IsZombie(procs, LastOf(pids))
    && forall i :: 0 <= i < |pids| ==> DeadWith(procs, pids[i], StatusToCode(procs[LastOf(pids)].life.status))
  }

  // ------------------------------------------------------------ it is enough

  // Whoever of the members is still unreaped is dead with this code, and so were those collected.
  ghost predicate AllWith(u: World, code: nat) {
    && u.pc.Wait?
    && (forall p :: p in u.pc.members && p in u.k.procs ==> DeadWith(u.k.procs, p, code))
    && (forall j :: 0 <= j < |u.pc.reaped| ==> StatusToCode(u.pc.reaped[j].status) == code)
  }

  lemma StepKeepsCode(u: World, a: Action, code: nat)
    requires Inv(u) && Enabled(u, a) && AllWith(u, code) && Apply(u, a).pc.Wait?
    ensures AllWith(Apply(u, a), code)
  {
    if IsKernelAction(a) {
      if a.ChildSetpgid? {
        SetpgidPlaces(u, a.p);
      }
    } else {
      assert u.handler.Idle?;
      assert a.WaitReap?;
    }
  }

  lemma {:induction false} RunKeepsCode(u: World, acts: seq<Action>, code: nat)
    requires Reachable(u) && Runs(u, acts) && KeepsWaiting(u, acts) && AllWith(u, code)
    ensures AllWith(After(u, acts), code)
    decreases |acts|
  {
    if acts != [] {
      ReachableInv(u);
      ReachableStep(u, acts[0]);
      StepKeepsCode(u, acts[0], code);
      RunKeepsCode(Apply(u, acts[0]), acts[1..], code);
    }
  }

  // At the end of such a wait any member's status will do.
  lemma CodeDecides(v: World, p: Pid, code: nat)
    requires Reachable(v) && v.pc.Wait? && Enabled(v, Step) && AllWith(v, code) && p in v.pc.members
    ensures ResultIsOf(v, p)
  {
    WaitCompletes(v);
    assert p in ReapedPids(v.pc.reaped);
    var j :| 0 <= j < |v.pc.reaped| && ReapedPids(v.pc.reaped)[j] == p;
    assert v.pc.reaped[j].pid == p;
  }

  lemma DeadAlikeSuffices(w: World)
    requires Reachable(w) && w.pc.GiveTty? && w.pc.pids != [] && ShellEnabled(w, Step) && DeadAlike(w.k.procs, w.pc.pids)
    ensures AlwaysLastStages(w)
  {
    var u := Apply(w, Step);
    var pids := w.pc.pids;
    var code := StatusToCode(w.k.procs[LastOf(pids)].life.status);
    WaitBegins(w);
    ReachableStep(w, Step);
    assert AllWith(u, code);
    forall v | Waits(u, v) && v.pc.Wait? && Enabled(v, Step) ensures ResultIsOf(v, LastOf(pids)) {
      var acts :| Runs(u, acts) && KeepsWaiting(u, acts) && After(u, acts) == v;
      RunKeepsCode(u, acts, code);
      ReachableFurther(u, acts);
      WaitAccumulates(u, acts);
      assert LastOf(pids) in v.pc.members;
      CodeDecides(v, LastOf(pids), code);
    }
  }

  lemma OneStageSuffices(w: World)
    requires Reachable(w) && w.pc.GiveTty? && |w.pc.pids| == 1 && ShellEnabled(w, Step)
    ensures AlwaysLastStages(w)
  {
    var u := Apply(w, Step);
    forall v | Waits(u, v) && v.pc.Wait? && Enabled(v, Step) ensures ResultIsOf(v, LastOf(w.pc.pids)) {
      var acts :| Runs(u, acts) && KeepsWaiting(u, acts) && After(u, acts) == v;
      ForegroundResult(w, w.pc.pids, acts);
      assert v.pc.reaped[0].pid == LastOf(w.pc.pids);
    }
  }

  // ------------------------------------------------------------ it is needed

  // What every stage is to die with: what it died with already, or the status chosen for it.
  function Fate(procs: map<Pid, Proc>, p: Pid, odd: Pid, status: WaitStatus, other: WaitStatus): WaitStatus {
    if IsZombie(procs, p) then procs[p].life.status else if p == odd then status else other
  }

  function Fates(procs: map<Pid, Proc>, order: seq<Pid>, odd: Pid, status: WaitStatus, other: WaitStatus): seq<Reaped> {
    seq(|order|, i requires 0 <= i < |order| => Reaped(order[i], Fate(procs, order[i], odd, status, other)))
  }

  // These are distinct members of the group waited for.
  ghost predicate Waiting(u: World, order: seq<Pid>) {
    && u.pc.Wait? && u.handler.Idle?
    && (forall i :: 0 <= i < |order| ==> order[i] in u.k.procs && u.k.procs[order[i]].group == u.pc.pgid)
    && (forall i, j :: 0 <= i < j < |order| ==> order[i] != order[j])
  }

  // The next of them dies, if it has not yet, and is collected.
  lemma CollectNext(u: World, p: Pid, status: WaitStatus) returns (v: World)
    requires u.pc.Wait? && u.handler.Idle? && p in u.k.procs && u.k.procs[p].group == u.pc.pgid
    requires IsZombie(u.k.procs, p) ==> u.k.procs[p].life.status == status
    ensures v == u.(k := v.k, pc := u.pc.(reaped := u.pc.reaped + [Reaped(p, status)])) && v.k.procs == u.k.procs - {p}
    ensures forall x :: Waits(v, x) ==> Waits(u, x)
  {
    var d := u;
    if !IsZombie(u.k.procs, p) {
      d := Apply(u, Die(p, status));
    }
    v := Apply(d, WaitReap(p));
    assert v.k.procs == u.k.procs - {p};
    forall x | Waits(v, x) ensures Waits(u, x) {
      WaitsStep(d, WaitReap(p), x);
      if !IsZombie(u.k.procs, p) {
        WaitsStep(u, Die(p, status), x);
      }
    }
  }

  lemma Associate(a: seq<Reaped>, b: seq<Reaped>, c: seq<Reaped>)
    ensures (a + b) + c == a + (b + c)
  {
  }

  lemma FatesSplit(procs: map<Pid, Proc>, left: map<Pid, Proc>, order: seq<Pid>, odd: Pid, status: WaitStatus, other: WaitStatus)
    requires order != [] && left == procs - {order[0]}
    requires forall i :: 0 < i < |order| ==> order[i] != order[0]
    ensures Fates(procs, [order[0]], odd, status, other) == [Reaped(order[0], Fate(procs, order[0], odd, status, other))]
    ensures Fates(procs, order, odd, status, other) == Fates(procs, [order[0]], odd, status, other) + Fates(left, order[1..], odd, status, other)
  {
  }

  /** The stages can be collected in any order, those still alive with any status. */
  lemma {:induction false} CollectInOrder(u: World, order: seq<Pid>, odd: Pid, status: WaitStatus, other: WaitStatus) returns (v: World)
    requires Waiting(u, order)
    ensures Waits(u, v) && v.handler.Idle?
    ensures v.pc == u.pc.(reaped := u.pc.reaped + Fates(u.k.procs, order, odd, status, other))
    ensures v.k.procs == u.k.procs - Elements(order)
    decreases |order|
  {
    if order == [] {
      v := u;
      WaitsSelf(u);
      assert u.pc.reaped + Fates(u.k.procs, order, odd, status, other) == u.pc.reaped;
    } else {
      var p, rest := order[0], order[1..];
      var t := CollectNext(u, p, Fate(u.k.procs, p, odd, status, other));
      assert Waiting(t, rest);
      v := CollectInOrder(t, rest, odd, status, other);
      FatesSplit(u.k.procs, t.k.procs, order, odd, status, other);
      Associate(u.pc.reaped, Fates(u.k.procs, [p], odd, status, other), Fates(t.k.procs, rest, odd, status, other));
      assert Elements(order) == {p} + Elements(rest);
      assert (u.k.procs - {p}) - Elements(rest) == u.k.procs - Elements(order);
    }
  }

  // The stages with the q-th moved to the end.
  function Last(pids: seq<Pid>, q: nat): seq<Pid>
    requires q < |pids|
  {
    pids[..q] + pids[q + 1..] + [pids[q]]
  }

  lemma LastIsRearranged(pids: seq<Pid>, q: nat)
    requires q < |pids| && forall i, j :: 0 <= i < j < |pids| ==> pids[i] != pids[j]
    ensures |Last(pids, q)| == |pids| && Elements(Last(pids, q)) == Elements(pids)
    ensures forall i, j :: 0 <= i < j < |pids| ==> Last(pids, q)[i] != Last(pids, q)[j]
  {
    var order := Last(pids, q);
    forall i | 0 <= i < |pids| ensures order[i] == if i < q then pids[i] else if i < |pids| - 1 then pids[i + 1] else pids[q] {
    }
    forall p | p in pids ensures p in order {
      var i :| 0 <= i < |pids| && pids[i] == p;
      assert order[if i < q then i else if i == q then |pids| - 1 else i - 1] == p;
    }
  }

  // Collecting all stages, the q-th at the end, brings the wait to its end.
  lemma CollectAll(w: World, q: nat, status: WaitStatus, other: WaitStatus) returns (v: World)
    requires Reachable(w) && w.pc.GiveTty? && ShellEnabled(w, Step) && q < |w.pc.pids|
    ensures Waits(Apply(w, Step), v) && v.pc.Wait? && Enabled(v, Step)
    ensures v.pc.reaped == Fates(w.k.procs, Last(w.pc.pids, q), w.pc.pids[q], status, other)
  {
    var pids, u := w.pc.pids, Apply(w, Step);
    var order := Last(pids, q);
    PipelineFormsOneGroup(w, pids);
    ReachableInv(w);
    LastIsRearranged(pids, q);
    assert forall i :: 0 <= i < |order| ==> order[i] in Elements(order);
    v := CollectInOrder(u, order, pids[q], status, other);
    assert [] + Fates(w.k.procs, order, pids[q], status, other) == Fates(w.k.procs, order, pids[q], status, other);
    assert Members(v.k.procs, pids[0]) == {};
  }

  // So the result differs, if the q-th stage dies with another code than the last one.
  lemma Differs(w: World, q: nat, status: WaitStatus, other: WaitStatus)
    requires Reachable(w) && w.pc.GiveTty? && ShellEnabled(w, Step) && q < |w.pc.pids| - 1
    requires var p := w.pc.pids[q]; var l := LastOf(w.pc.pids);
      StatusToCode(Fate(w.k.procs, p, p, status, other)) != StatusToCode(Fate(w.k.procs, l, p, status, other))
    ensures !AlwaysLastStages(w)
  {
    var p, l := w.pc.pids[q], LastOf(w.pc.pids);
    var order := Last(w.pc.pids, q);
    var fates := Fates(w.k.procs, order, p, status, other);
    var v := CollectAll(w, q, status, other);
    assert fates[|order| - 1] == Reaped(p, Fate(w.k.procs, p, p, status, other));
    assert Apply(v, Step).pc == TakeTty(StatusToCode(fates[|order| - 1].status));
    assert !ResultIsOf(v, l);
  }

  function OtherCode(code: nat): nat {
    if code == 0 then 1 else 0
  }

  lemma NotAlikeDiffers(w: World)
    requires Reachable(w) && w.pc.GiveTty? && ShellEnabled(w, Step) && |w.pc.pids| > 1 && !DeadAlike(w.k.procs, w.pc.pids)
    requires forall i, j :: 0 <= i < j < |w.pc.pids| ==> w.pc.pids[i] != w.pc.pids[j]
    ensures !AlwaysLastStages(w)
  {
    var pids, procs := w.pc.pids, w.k.procs;
    var l := LastOf(pids);
    if IsZombie(procs, l) {
      var code := StatusToCode(procs[l].life.status);
      var q :| 0 <= q < |pids| && !DeadWith(procs, pids[q], code);
      Differs(w, q, Exited(OtherCode(code)), Exited(0));
    } else {
      var code := StatusToCode(Fate(procs, pids[0], pids[0], Exited(0), Exited(0)));
      Differs(w, 0, Exited(0), Exited(OtherCode(code)));
    }
  }

  /** The result of a foreground pipeline is its last stage's status in every run if and only if
      it has one stage, or all its stages are dead before the wait begins, with one and the same
      code. In particular, with all stages alive, if and only if there is one stage. */
  lemma ResultIsLastStagesExactly(w: World)
    requires Reachable(w) && w.pc.GiveTty? && Enabled(w, Step)
    ensures w.pc.pids != []
    ensures AlwaysLastStages(w) <==> |w.pc.pids| == 1 || DeadAlike(w.k.procs, w.pc.pids)
    ensures (forall i :: 0 <= i < |w.pc.pids| ==> w.pc.pids[i] in w.k.procs && w.k.procs[w.pc.pids[i]].life.Alive?) ==>
      (AlwaysLastStages(w) <==> |w.pc.pids| == 1)
  {
    PipelineFormsOneGroup(w, w.pc.pids);
    var pids, procs := w.pc.pids, w.k.procs;
    var l := LastOf(pids);
    if |pids| == 1 {
      OneStageSuffices(w);
    } else if DeadAlike(procs, pids) {
      DeadAlikeSuffices(w);
    } else {
      ReachableInv(w);
      NotAlikeDiffers(w);
    }
  }
}
