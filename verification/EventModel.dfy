/**
 The life of event handlers (src/Core/Service/Handler.cpp, src/Core/Service/Handler.tpp,
 src/Core/Service/Server.cpp, src/Core/Service/Server.tpp): handlers are registered with the server, armed
 for read or write events, activated, suspended while another handler works for them, retired, and
 destroyed when the server purges between two rounds of its loop. `H` stands for the handler objects.
 */
module EventModel {

  /** The events a handler asks for. */
  datatype Mask = Mask(read: bool, write: bool)

  const BOTH := Mask(true, true)

  datatype State<H> = State(
    registered: set<H>,
    retired: seq<H>,
    armedRead: set<H>,
    armedWrite: set<H>,
    suspended: map<H, H>,  // whom each handler resumes when it drops
    destroyed: set<H>)

  ghost predicate Live<H>(s: State<H>, h: H) {
    h in s.registered && h !in s.retired
  }

  ghost predicate Armed<H>(s: State<H>, h: H) {
    h in s.armedRead || h in s.armedWrite
  }

  /** The live handler `w` resumes `t` when it drops. */
  ghost predicate Awaits<H>(s: State<H>, w: H, t: H) {
    Live(s, w) && w in s.suspended && s.suspended[w] == t
  }

  // Operations

  /** `setHandlers`. */
  ghost function Arm<H>(s: State<H>, h: H, m: Mask): State<H> {
    s.(armedRead := if m.read then s.armedRead + {h} else s.armedRead,
       armedWrite := if m.write then s.armedWrite + {h} else s.armedWrite)
  }

  /** `dropEvent`. */
  ghost function Disarm<H>(s: State<H>, h: H): State<H> {
    s.(armedRead := s.armedRead - {h}, armedWrite := s.armedWrite - {h})
  }

  /** `addHandler`: the constructor arms the new handler. */
  ghost function Added<H>(s: State<H>, h: H, m: Mask): State<H> {
    Arm(s.(registered := s.registered + {h}), h, m)
  }

  /** `doDropHandler`: disarm, retire, and resume the handler that waits. */
  ghost function Dropped<H>(s: State<H>, h: H): State<H> {
    var t := Disarm(s, h).(retired := s.retired + [h]);
    if h in s.suspended then Arm(t, s.suspended[h], BOTH) else t
  }

  /** `transferHandler`: add the child, and let the current handler wait for it. */
  ghost function Transferred<H>(s: State<H>, h: H, child: H, m: Mask): State<H> {
    var t := Added(s, child, m);
    t.(suspended := t.suspended[child := h])
  }

  ghost function SetOf<H>(s: seq<H>): set<H> {
    set h | h in s
  }

  /** `purgeRetiredHandlers`: the retired handlers are destroyed. */
  ghost function Purged<H>(s: State<H>): State<H> {
    var gone := SetOf(s.retired);
    State(s.registered - gone, [], s.armedRead - gone, s.armedWrite - gone, s.suspended - gone, s.destroyed + gone)
  }

  /** An event of `h` occurs; unless it is persistent it is no longer armed. */
  ghost function Fired<H>(s: State<H>, h: H, write: bool, persistent: bool): State<H> {
    if persistent then s else if write then s.(armedWrite := s.armedWrite - {h}) else s.(armedRead := s.armedRead - {h})
  }

  /** How an activation ends: asking for events, waiting for a new handler, dropping, or being replaced. */
  datatype Ending<H> = Return(mask: Mask) | Transfer(child: H, mask: Mask) | Drop | Move(child: H, mask: Mask)

  ghost function Ended<H>(s: State<H>, h: H, e: Ending<H>): State<H> {
    match e
    case Return(m) => Arm(s, h, m)
    case Transfer(child, m) => Transferred(s, h, child, m)
    case Drop => Dropped(s, h)
    case Move(child, m) => Added(Dropped(s, h), child, m)
  }

  datatype Op<H> =
    | Add(h: H, mask: Mask)
    | Activate(h: H, write: bool, persistent: bool, ending: Ending<H>)
    | Purge

  ghost function Step<H>(s: State<H>, op: Op<H>): State<H> {
    match op
    case Add(h, m) => Added(s, h, m)
    case Activate(h, write, persistent, e) => Ended(Fired(s, h, write, persistent), h, e)
    case Purge => Purged(s)
  }

  ghost predicate IsNew<H>(s: State<H>, h: H) {
    h !in s.registered && h !in s.destroyed
  }

  /** The step can occur: new handlers are new objects, and only armed events are activated. */
  ghost predicate Occurs<H>(s: State<H>, op: Op<H>) {
    match op
    case Add(h, m) => IsNew(s, h)
    case Activate(h, write, persistent, e) =>
      && (if write then h in s.armedWrite else h in s.armedRead)
      && (e.Transfer? || e.Move? ==> IsNew(s, e.child))
    case Purge => true
  }

  /** A handler that starts to wait has no event armed any more. */
  ghost predicate WaitsUnarmed<H>(s: State<H>, op: Op<H>) {
    op.Activate? && op.ending.Transfer? ==> !Armed(Fired(s, op.h, op.write, op.persistent), op.h)
  }

  // What a step means for one handler

  /** The mask that the step asks for on behalf of `k`: its own, or both events when the one it waits for drops. */
  ghost predicate AsksFor<H>(s: State<H>, op: Op<H>, k: H, write: bool) {
    match op
    case Add(h, m) => k == h && Wants(m, write)
    case Purge => false
    case Activate(h, w, p, e) =>
      match e
      case Return(m) => k == h && Wants(m, write)
      case Transfer(child, m) => k == child && Wants(m, write)
      case Drop => Resumes(s, h, k)
      case Move(child, m) => Resumes(s, h, k) || (k == child && Wants(m, write))
  }

  predicate Wants(m: Mask, write: bool) {
    if write then m.write else m.read
  }

  ghost predicate Resumes<H>(s: State<H>, h: H, k: H) {
    h in s.suspended && s.suspended[h] == k
  }

  /** The step uses up or takes away the event of `k`: it fires, or the handler drops, is replaced or destroyed. */
  ghost predicate TakesAway<H>(s: State<H>, op: Op<H>, k: H, write: bool) {
    match op
    case Add(h, m) => false
    case Purge => k in s.retired
    case Activate(h, w, persistent, e) => k == h && (e.Drop? || e.Move? || (w == write && !persistent))
  }

  ghost predicate IsArmed<H>(s: State<H>, k: H, write: bool) {
    if write then k in s.armedWrite else k in s.armedRead
  }

  /** After an activation an event is armed exactly when it asks for it, or it was armed and is not taken away. */
  lemma EndingArmsExactly<H>(s: State<H>, h: H, w: bool, p: bool, e: Ending<H>, k: H, write: bool)
    ensures var op := Activate(h, w, p, e);
      IsArmed(Step(s, op), k, write) <==>
        AsksFor(s, op, k, write) || (IsArmed(s, k, write) && !TakesAway(s, op, k, write))
  {
    var t := Fired(s, h, w, p);
    assert IsArmed(t, k, write) <==> IsArmed(s, k, write) && !(k == h && w == write && !p);
    match e
    case Return(m) =>
    case Transfer(child, m) =>
    case Drop =>
      DropArmsExactly(t, h, k, write);
    case Move(child, m) =>
      DropArmsExactly(t, h, k, write);
  }

  lemma DropArmsExactly<H>(s: State<H>, h: H, k: H, write: bool)
    ensures IsArmed(Dropped(s, h), k, write) <==> Resumes(s, h, k) || (IsArmed(s, k, write) && k != h)
  {
  }

  /** After a step an event is armed exactly when the step asks for it, or it was armed and is not taken away. */
  lemma StepArmsExactly<H>(s: State<H>, op: Op<H>, k: H, write: bool)
    ensures IsArmed(Step(s, op), k, write) <==>
      AsksFor(s, op, k, write) || (IsArmed(s, k, write) && !TakesAway(s, op, k, write))
  {
    if op.Activate? {
      EndingArmsExactly(s, op.h, op.write, op.persistent, op.ending, k, write);
    }
  }

  /** The step brings a new handler. */
  ghost predicate Brings<H>(op: Op<H>, k: H) {
    match op
    case Add(h, m) => k == h
    case Activate(h, w, p, e) => (e.Transfer? || e.Move?) && k == e.child
    case Purge => false
  }

  /** The step ends the work of a handler: it drops or is replaced. */
  ghost predicate Retires<H>(op: Op<H>, k: H) {
    op.Activate? && op.h == k && (op.ending.Drop? || op.ending.Move?)
  }

  /** The step lets a handler wait for a new one. */
  ghost predicate Suspends<H>(op: Op<H>, h: H, child: H) {
    op.Activate? && op.h == h && op.ending.Transfer? && op.ending.child == child
  }

  lemma DropRetires<H>(s: State<H>, h: H, k: H)
    ensures var t := Dropped(s, h);
      t.registered == s.registered && t.destroyed == s.destroyed && (k in t.retired <==> k in s.retired || k == h)
  {
  }

  /** Which handlers are registered, retired and destroyed after a step. */
  lemma StepLivesExactly<H>(s: State<H>, op: Op<H>, k: H)
    ensures var t := Step(s, op);
      && (k in t.registered <==> Brings(op, k) || (k in s.registered && !(op.Purge? && k in s.retired)))
      && (k in t.retired <==> !op.Purge? && (k in s.retired || Retires(op, k)))
      && (k in t.destroyed <==> k in s.destroyed || (op.Purge? && k in s.retired))
  {
    match op
    case Add(h, m) =>
    case Purge =>
    case Activate(h, write, persistent, e) =>
      var t := Fired(s, h, write, persistent);
      assert t.registered == s.registered && t.retired == s.retired && t.destroyed == s.destroyed;
      DropRetires(t, h, k);
      match e
      case Return(m) =>
      case Transfer(child, m) =>
      case Drop =>
      case Move(child, m) =>
        assert Added(Dropped(t, h), child, m).retired == Dropped(t, h).retired;
  }

  /** Which handler resumes which after a step. */
  lemma StepSuspendsExactly<H>(s: State<H>, op: Op<H>, k: H, h: H)
    ensures Resumes(Step(s, op), k, h) <==>
      Suspends(op, h, k) ||
      (Resumes(s, k, h) && !(op.Purge? && k in s.retired) && forall g :: !Suspends(op, g, k))
  {
    if op.Activate? && op.ending.Transfer? {
      assert Suspends(op, op.h, op.ending.child);
    }
  }

  /** After a returned mask the handler is armed for the mask, and for what was armed and has not fired. */
  lemma ReturnArms<H>(s: State<H>, h: H, write: bool, persistent: bool, m: Mask)
    ensures var t := Step(s, Activate(h, write, persistent, Return(m)));
      && (h in t.armedRead <==> m.read || (h in s.armedRead && (write || persistent)))
      && (h in t.armedWrite <==> m.write || (h in s.armedWrite && (!write || persistent)))
      && (forall k :: k != h ==>
           (k in t.armedRead <==> k in s.armedRead) && (k in t.armedWrite <==> k in s.armedWrite))
      && t.registered == s.registered && t.retired == s.retired && t.suspended == s.suspended
      && t.destroyed == s.destroyed
  {
  }

  /** After a purge no handler is retired, and exactly those that were are gone; the others are as before. */
  lemma PurgeTakesRetired<H>(s: State<H>, k: H)
    ensures var t := Step(s, Purge);
      && t.retired == [] && (k in t.destroyed <==> k in s.destroyed || k in s.retired)
      && if k in s.retired then k !in t.registered && !Armed(t, k) && k !in t.suspended
         else
           && (k in t.registered <==> k in s.registered)
           && (forall write :: IsArmed(t, k, write) <==> IsArmed(s, k, write))
           && (forall h :: Resumes(t, k, h) <==> Resumes(s, k, h))
  {
  }

  // The invariant

  ghost predicate NoDuplicates<H>(s: seq<H>) {
    forall i, j :: 0 <= i < j < |s| ==> s[i] != s[j]
  }

  /** Retired handlers are registered until the purge, once each; armed handlers are live; nothing destroyed is left. */
  ghost predicate Ownership<H>(s: State<H>) {
    && NoDuplicates(s.retired)
    && (forall h :: h in s.retired ==> h in s.registered)
    && (forall h :: h in s.armedRead ==> Live(s, h))
    && (forall h :: h in s.armedWrite ==> Live(s, h))
    && (forall h :: h in s.registered ==> h !in s.destroyed)
    && (forall h :: h in s.suspended ==> h in s.registered)
  }

  /** What a live handler waits to resume is live, not armed, and awaited by it alone. */
  ghost predicate Waiting<H>(s: State<H>) {
    && (forall w :: w in s.suspended && Live(s, w) ==> Live(s, s.suspended[w]) && !Armed(s, s.suspended[w]))
    && (forall v, w :: v in s.suspended && w in s.suspended && Live(s, v) && Live(s, w) && v != w ==>
         s.suspended[v] != s.suspended[w])
  }

  ghost predicate Inv<H>(s: State<H>) {
    Ownership(s) && Waiting(s)
  }

  /**
   Registering and arming `h` for a time keeps `Waiting`: live handlers other than `h` were live, armed
   ones other than `h` were armed, nobody that stays live waits for `h`, and nobody else begins to wait.
   */
  lemma WaitingCarries<H>(s: State<H>, t: State<H>, h: H)
    requires Waiting(s)
    requires forall k :: Live(t, k) && k in t.suspended ==>
      k in s.suspended && Live(s, k) && t.suspended[k] == s.suspended[k]
    requires forall k :: Live(s, k) && k != h ==> Live(t, k)
    requires forall k :: Armed(t, k) && k != h ==> Armed(s, k)
    requires forall k :: Live(t, k) && k in t.suspended ==> t.suspended[k] != h
    ensures Waiting(t)
  {
    forall w | w in t.suspended && Live(t, w)
      ensures Live(t, t.suspended[w]) && !Armed(t, t.suspended[w])
    {
      assert Live(s, w) && Live(s, s.suspended[w]) && !Armed(s, s.suspended[w]);
    }
    forall v, w | v in t.suspended && w in t.suspended && Live(t, v) && Live(t, w) && v != w
      ensures t.suspended[v] != t.suspended[w]
    {
      assert Live(s, v) && Live(s, w) && s.suspended[v] != s.suspended[w];
    }
  }

  lemma AddKeepsInv<H>(s: State<H>, h: H, m: Mask)
    requires Inv(s) && IsNew(s, h)
    ensures Inv(Added(s, h, m))
  {
    var t := Added(s, h, m);
    assert forall k :: Live(t, k) <==> Live(s, k) || k == h;
    assert forall k :: Armed(t, k) ==> Armed(s, k) || k == h;
    forall w | Live(t, w) && w in t.suspended
      ensures Live(s, w) && t.suspended[w] != h
    {
      assert Live(s, w) && Live(s, s.suspended[w]);
    }
    WaitingCarries(s, t, h);
  }

  /** Arming a live handler that nobody waits to resume keeps the invariant. */
  lemma ArmKeepsInv<H>(s: State<H>, h: H, m: Mask)
    requires Inv(s) && Live(s, h) && forall w :: w in s.suspended && Live(s, w) ==> s.suspended[w] != h
    ensures Inv(Arm(s, h, m))
  {
    var t := Arm(s, h, m);
    assert forall k :: Live(t, k) <==> Live(s, k);
    assert forall k :: Armed(t, k) ==> Armed(s, k) || k == h;
    WaitingCarries(s, t, h);
  }

  /** A handler that is activated is live and nobody waits to resume it; firing its event keeps it so. */
  lemma FiredKeepsInv<H>(s: State<H>, h: H, write: bool, persistent: bool)
    requires Inv(s) && Armed(s, h)
    ensures var t := Fired(s, h, write, persistent);
      Inv(t) && Live(t, h) && forall w :: w in t.suspended && Live(t, w) ==> t.suspended[w] != h
  {
    var t := Fired(s, h, write, persistent);
    assert forall k :: Live(t, k) <==> Live(s, k);
    assert forall k :: Armed(t, k) ==> Armed(s, k);
    forall w | w in t.suspended && Live(t, w)
      ensures t.suspended[w] != h
    {
      assert Live(s, w) && !Armed(s, s.suspended[w]);
    }
    assert Live(s, h);
    WaitingCarries(s, t, h);
  }

  /** Retiring `h` and resuming whom it waits for keeps the invariant when nobody waits for `h`. */
  lemma DropKeepsInv<H>(s: State<H>, h: H)
    requires Inv(s) && Live(s, h) && forall w :: w in s.suspended && Live(s, w) ==> s.suspended[w] != h
    ensures Inv(Dropped(s, h))
  {
    var u := Disarm(s, h).(retired := s.retired + [h]);
    assert forall k :: k in u.retired <==> k in s.retired || k == h;
    assert forall k :: Live(u, k) <==> Live(s, k) && k != h;
    assert forall k :: Armed(u, k) <==> Armed(s, k) && k != h;
    WaitingCarries(s, u, h);
    if h in s.suspended {
      var target := s.suspended[h];
      assert Live(s, target) && target != h;
      forall w | w in u.suspended && Live(u, w)
        ensures u.suspended[w] != target
      {
        assert Live(s, w) && w != h;
      }
      ArmKeepsInv(u, target, BOTH);
    }
  }

  /** Waiting for a child keeps the invariant exactly when the waiting handler has no event armed. */
  lemma TransferKeepsInvExactly<H>(s: State<H>, h: H, child: H, m: Mask)
    requires Inv(s) && Live(s, h) && IsNew(s, child)
    requires forall w :: w in s.suspended && Live(s, w) ==> s.suspended[w] != h
    ensures Inv(Transferred(s, h, child, m)) <==> !Armed(s, h)
  {
    var u, t := Added(s, child, m), Transferred(s, h, child, m);
    AddKeepsInv(s, child, m);
    assert forall k :: Live(u, k) <==> Live(s, k) || k == child;
    assert forall k :: Live(t, k) <==> Live(u, k);
    assert forall k :: Armed(t, k) <==> Armed(u, k);
    assert Live(t, child) && t.suspended[child] == h && child != h;
    assert Armed(u, h) <==> Armed(s, h);
    if !Armed(s, h) {
      forall w | w in t.suspended && Live(t, w)
        ensures Live(t, t.suspended[w]) && !Armed(t, t.suspended[w]) && (w != child ==> t.suspended[w] != h)
      {
        if w != child {
          assert Live(s, w) && Live(u, w) && Live(u, u.suspended[w]);
        }
      }
      forall v, w | v in t.suspended && w in t.suspended && Live(t, v) && Live(t, w) && v != w
        ensures t.suspended[v] != t.suspended[w]
      {
        if v != child && w != child {
          assert Live(u, v) && Live(u, w);
        }
      }
    } else {
      assert !Waiting(t);
    }
  }

  lemma PurgeKeepsInv<H>(s: State<H>)
    requires Inv(s)
    ensures Inv(Purged(s))
  {
    var gone := SetOf(s.retired);
    assert forall h :: h in gone <==> h in s.retired;
  }

  /** Every step of the event loop keeps the invariant, provided handlers wait unarmed. */
  lemma StepKeepsInv<H>(s: State<H>, op: Op<H>)
    requires Inv(s) && Occurs(s, op) && WaitsUnarmed(s, op)
    ensures Inv(Step(s, op))
  {
    match op
    case Add(h, m) => AddKeepsInv(s, h, m);
    case Purge => PurgeKeepsInv(s);
    case Activate(h, write, persistent, e) =>
      FiredKeepsInv(s, h, write, persistent);
      var t := Fired(s, h, write, persistent);
      match e
      case Return(m) => ArmKeepsInv(t, h, m);
      case Transfer(child, m) => TransferKeepsInvExactly(t, h, child, m);
      case Drop => DropKeepsInv(t, h);
      case Move(child, m) =>
        DropKeepsInv(t, h);
        AddKeepsInv(Dropped(t, h), child, m);
  }

  // Runs

  ghost function Start<H>(): State<H> {
    State({}, [], {}, {}, map[], {})
  }

  ghost predicate IsRun<H>(states: seq<State<H>>, ops: seq<Op<H>>) {
    && |states| == |ops| + 1 && states[0] == Start()
    && forall i :: 0 <= i < |ops| ==>
         Occurs(states[i], ops[i]) && WaitsUnarmed(states[i], ops[i]) && states[i + 1] == Step(states[i], ops[i])
  }

  lemma RunGoesOn<H>(states: seq<State<H>>, ops: seq<Op<H>>, op: Op<H>)
    requires IsRun(states, ops) && Occurs(states[|ops|], op) && WaitsUnarmed(states[|ops|], op)
    ensures IsRun(states + [Step(states[|ops|], op)], ops + [op])
  {
    var more, all := states + [Step(states[|ops|], op)], ops + [op];
    forall i | 0 <= i < |all|
      ensures Occurs(more[i], all[i]) && WaitsUnarmed(more[i], all[i]) && more[i + 1] == Step(more[i], all[i])
    {
      assert more[i] == states[i] && (i < |ops| ==> all[i] == ops[i] && more[i + 1] == states[i + 1]);
    }
  }

  /** The invariant holds in every state of every run in which handlers wait unarmed. */
  lemma {:induction false} RunKeepsInv<H>(states: seq<State<H>>, ops: seq<Op<H>>, i: nat)
    requires IsRun(states, ops) && i <= |ops|
    ensures Inv(states[i])
  {
    if i > 0 {
      RunKeepsInv(states, ops, i - 1);
      StepKeepsInv(states[i - 1], ops[i - 1]);
    }
  }

  /** In every run, only live handlers are activated, and a handler waiting for another is never activated. */
  lemma RunActivatesLive<H>(states: seq<State<H>>, ops: seq<Op<H>>, i: nat)
    requires IsRun(states, ops) && i < |ops| && ops[i].Activate?
    ensures Live(states[i], ops[i].h) && ops[i].h !in states[i].destroyed
    ensures forall w :: w in states[i].suspended ==> !Awaits(states[i], w, ops[i].h)
  {
    RunKeepsInv(states, ops, i);
  }

  /** No step between `i` and `j` uses up or takes away the event of `h`. */
  ghost predicate Undisturbed<H>(states: seq<State<H>>, ops: seq<Op<H>>, i: nat, j: nat, h: H, write: bool)
    requires i <= j <= |ops| < |states|
  {
    forall k :: i <= k < j ==> !TakesAway(states[k], ops[k], h, write)
  }

  /**
   No wake-up is lost: in every run an event that a step asks for stays armed until it fires or its handler
   drops, is replaced or destroyed.
   */
  lemma {:induction false} RunKeepsArmed<H>(states: seq<State<H>>, ops: seq<Op<H>>, i: nat, j: nat, h: H, write: bool)
    requires IsRun(states, ops) && i < j <= |ops| && AsksFor(states[i], ops[i], h, write)
    requires Undisturbed(states, ops, i + 1, j, h, write)
    ensures IsArmed(states[j], h, write)
    decreases j
  {
    StepArmsExactly(states[j - 1], ops[j - 1], h, write);
    if i < j - 1 {
      assert !TakesAway(states[j - 1], ops[j - 1], h, write);
      RunKeepsArmed(states, ops, i, j - 1, h, write);
    }
  }

  /** In every run an armed event has been asked for, and nothing has used it up or taken it away since. */
  lemma {:induction false} RunArmsOnRequest<H>(states: seq<State<H>>, ops: seq<Op<H>>, j: nat, h: H, write: bool)
    returns (i: nat)
    requires IsRun(states, ops) && j <= |ops| && IsArmed(states[j], h, write)
    ensures i < j && AsksFor(states[i], ops[i], h, write) && Undisturbed(states, ops, i + 1, j, h, write)
  {
    StepArmsExactly(states[j - 1], ops[j - 1], h, write);
    if AsksFor(states[j - 1], ops[j - 1], h, write) {
      i := j - 1;
    } else {
      i := RunArmsOnRequest(states, ops, j - 1, h, write);
    }
  }

  /** In every run an event is armed exactly when some step has asked for it and none since has disturbed it. */
  lemma RunArmsExactly<H>(states: seq<State<H>>, ops: seq<Op<H>>, j: nat, h: H, write: bool)
    requires IsRun(states, ops) && j <= |ops|
    ensures IsArmed(states[j], h, write) <==>
      exists i: nat :: i < j && AsksFor(states[i], ops[i], h, write) && Undisturbed(states, ops, i + 1, j, h, write)
  {
    if IsArmed(states[j], h, write) {
      var i := RunArmsOnRequest(states, ops, j, h, write);
    }
    if i: nat :| i < j && AsksFor(states[i], ops[i], h, write) && Undisturbed(states, ops, i + 1, j, h, write) {
      RunKeepsArmed(states, ops, i, j, h, write);
    }
  }

  /** Arming one handler arms no other. */
  lemma ArmsOnly<H>(s: State<H>, h: H, m: Mask, t: H)
    requires t != h && Armed(Arm(s, h, m), t)
    ensures Armed(s, t)
  {
  }

  /** A drop arms nothing but the handler that the dropped one waits for. */
  lemma DropRearms<H>(s: State<H>, h: H, t: H)
    requires !Armed(s, t) && Armed(Dropped(s, h), t)
    ensures h in s.suspended && s.suspended[h] == t
  {
  }

  /** An activation arms an awaited handler only by dropping the one that waits for it. */
  lemma EndingRearms<H>(s: State<H>, h: H, e: Ending<H>, w: H, t: H)
    requires Inv(s) && Live(s, h) && h != t && Awaits(s, w, t)
    requires (e.Transfer? || e.Move? ==> IsNew(s, e.child)) && Armed(Ended(s, h, e), t)
    ensures h == w && (e.Drop? || e.Move?)
  {
    assert Live(s, t) && !Armed(s, t);
    match e
    case Return(m) =>
      ArmsOnly(s, h, m, t);
    case Transfer(child, m) =>
      assert Armed(Added(s, child, m), t);
      ArmsOnly(s.(registered := s.registered + {child}), child, m, t);
    case Drop =>
      DropRearms(s, h, t);
    case Move(child, m) =>
      var d := Dropped(s, h);
      ArmsOnly(d.(registered := d.registered + {child}), child, m, t);
      DropRearms(s, h, t);
  }

  /** One step arms an awaited handler only by dropping the one that waits for it. */
  lemma StepRearms<H>(s: State<H>, op: Op<H>, w: H, t: H)
    requires Inv(s) && Occurs(s, op) && Awaits(s, w, t) && Armed(Step(s, op), t)
    ensures op.Activate? && op.h == w && (op.ending.Drop? || op.ending.Move?)
  {
    assert Live(s, t) && !Armed(s, t);
    match op
    case Add(h, m) =>
      ArmsOnly(s.(registered := s.registered + {h}), h, m, t);
    case Activate(h, write, persistent, e) =>
      FiredKeepsInv(s, h, write, persistent);
      EndingRearms(Fired(s, h, write, persistent), h, e, w, t);
    case Purge =>
  }

  /** In every run, a handler that is awaited is armed again only by the drop of the handler it waits for. */
  lemma RunRearmsByDrop<H>(states: seq<State<H>>, ops: seq<Op<H>>, i: nat, w: H, t: H)
    requires IsRun(states, ops) && i < |ops|
    requires Awaits(states[i], w, t) && Armed(states[i + 1], t)
    ensures ops[i].Activate? && ops[i].h == w && (ops[i].ending.Drop? || ops[i].ending.Move?)
  {
    RunKeepsInv(states, ops, i);
    StepRearms(states[i], ops[i], w, t);
  }

  /** In every run, handlers are destroyed only by a purge, only when retired, and never again. */
  lemma RunDestroysInPurge<H>(states: seq<State<H>>, ops: seq<Op<H>>, i: nat, h: H)
    requires IsRun(states, ops) && i < |ops|
    requires h in states[i + 1].destroyed && h !in states[i].destroyed
    ensures ops[i].Purge? && h in states[i].retired
    ensures forall j :: i < j <= |ops| ==> h in states[j].destroyed && h !in states[j].registered
  {
    forall j | i < j <= |ops|
      ensures h in states[j].destroyed && h !in states[j].registered
    {
      StaysDestroyed(states, ops, i + 1, j, h);
      RunKeepsInv(states, ops, j);
    }
  }

  lemma {:induction false} StaysDestroyed<H>(states: seq<State<H>>, ops: seq<Op<H>>, i: nat, j: nat, h: H)
    requires IsRun(states, ops) && i <= j <= |ops| && h in states[i].destroyed
    ensures h in states[j].destroyed
    decreases j
  {
    if i < j {
      StaysDestroyed(states, ops, i, j - 1, h);
    }
  }

  /** After one wait handler 1 is resumed for both events; handler 2 is retired. */
  function Resumed(): State<nat> {
    State({1, 2}, [2], {1}, {1}, map[2 := 1], {})
  }

  lemma ResumedIsReached()
    ensures var read := Mask(true, false);
      var s1 := Step(Start(), Add(1, read));
      var s2 := Step(s1, Activate(1, false, false, Transfer(2, read)));
      && Occurs(Start(), Add(1, read)) && Occurs(s1, Activate(1, false, false, Transfer(2, read)))
      && Occurs(s2, Activate(2, false, false, Drop)) && Step(s2, Activate(2, false, false, Drop)) == Resumed()
  {
    var read := Mask(true, false);
    var s1 := Step(Start(), Add(1, read));
    assert s1 == State({1}, [], {1}, {}, map[], {});
    var s2 := Step(s1, Activate(1, false, false, Transfer(2, read)));
    assert s2 == State({1, 2}, [], {2}, {}, map[2 := 1], {});
  }

  /**
   Without the proviso: on its next read handler 1 waits for 3 while its write event is still armed. That
   event activates it, it drops, and the purge destroys the handler that 3 is going to resume.
   */
  lemma ArmedWaiterIsDestroyed()
    ensures var s4 := Step(Resumed(), Activate(1, false, false, Transfer(3, Mask(true, false))));
      var s5 := Step(s4, Activate(1, true, false, Drop));
      && Occurs(Resumed(), Activate(1, false, false, Transfer(3, Mask(true, false))))
      && Occurs(s4, Activate(1, true, false, Drop))
      && Awaits(Step(s5, Purge), 3, 1) && 1 in Step(s5, Purge).destroyed
  {
    var s4 := Step(Resumed(), Activate(1, false, false, Transfer(3, Mask(true, false))));
    assert s4 == State({1, 2, 3}, [2], {3}, {1}, map[2 := 1, 3 := 1], {});
    var s5 := Step(s4, Activate(1, true, false, Drop));
    assert s5 == State({1, 2, 3}, [2, 1], {3}, {}, map[2 := 1, 3 := 1], {});
    assert 1 in s5.retired && 3 !in s5.retired;
  }
}
