/** The per-creature instance scheduler: each game turn it advances the
    running instance's tick counter, lets the instance's handler fire at the
    trigger tick and retires the instance at the completion tick, unless an
    extension was requested, which costs the instance one more tick. */
module CreatureInstances {
  import opened Common
  import opened InstanceCatalog

  /** CrInst_NULL: no instance is running. */
  const NULL_INSTANCE: int := 0

  /** The timing state of one creature's control record.
      `elapsed`, `triggerTick`, `completionTick` and `extend` are the
      source's field_D4, field_D6, field_D8 and field_D3; `useTurn` is
      instance_use_turn, the turn each instance last finished. */
  datatype Timer = Timer(
    instanceId: int,
    elapsed: int,
    triggerTick: int,
    completionTick: int,
    extend: bool,
    useTurn: seq<int>)

  /** The running instance has a slot in the use-turn table. */
  predicate WellFormed(t: Timer)
  {
    0 <= t.instanceId < |t.useTurn|
  }

  /** A call of an instance handler: the handler and the descriptor
      parameter it receives. */
  datatype HandlerCall = HandlerCall(handler: Handler, param: int)

  /** What one scheduling tick does: the new timing state and the handler
      call it made, if any. */
  datatype Tick = Tick(next: Timer, fired: Option<HandlerCall>)

  /** process_creature_instance, as a function of the timing state. */
  function Step(t: Timer, catalog: seq<InstanceInfo>, gameTurn: int): (r: Tick)
    requires |catalog| == INSTANCE_INFO_COUNT && WellFormed(t)
    ensures WellFormed(r.next) && |r.next.useTurn| == |t.useTurn|
    ensures r.next.triggerTick == t.triggerTick && r.next.completionTick == t.completionTick
    // with no instance running, nothing happens
    ensures t.instanceId == NULL_INSTANCE ==> r == Tick(t, None)
    // a running instance always has its extension flag consumed
    ensures t.instanceId != NULL_INSTANCE ==> !r.next.extend
    // the counter advances by exactly one, except when an extension is taken
    ensures t.instanceId != NULL_INSTANCE ==>
              (r.next.elapsed == t.elapsed + 1 <==> !(t.extend && t.elapsed + 1 == t.completionTick))
    ensures t.instanceId != NULL_INSTANCE && t.extend && t.elapsed + 1 == t.completionTick ==>
              r.next.elapsed == t.elapsed && r.next.instanceId == t.instanceId
    // the handler fires exactly at the trigger tick, with the descriptor's parameter
    ensures r.fired.Some? <==>
              t.instanceId != NULL_INSTANCE && t.elapsed + 1 == t.triggerTick &&
              catalog[InfoIndex(t.instanceId)].handler.Some?
    ensures r.fired.Some? ==>
              r.fired.value == HandlerCall(catalog[InfoIndex(t.instanceId)].handler.value,
                                           catalog[InfoIndex(t.instanceId)].param)
    // the instance retires exactly at the completion tick without extension,
    // stamping its own use-turn slot and no other
    ensures r.next.instanceId != t.instanceId <==>
              t.instanceId != NULL_INSTANCE && t.elapsed + 1 == t.completionTick && !t.extend
    ensures r.next.instanceId != t.instanceId ==>
              r.next.instanceId == NULL_INSTANCE && r.next.useTurn == t.useTurn[t.instanceId := gameTurn]
    ensures r.next.instanceId == t.instanceId ==> r.next.useTurn == t.useTurn
  {
    if t.instanceId == NULL_INSTANCE then Tick(t, None)
    else
      var e := t.elapsed + 1;
      var info := catalog[InfoIndex(t.instanceId)];
      var fired := if e == t.triggerTick && info.handler.Some?
                   then Some(HandlerCall(info.handler.value, info.param)) else None;
      if e == t.completionTick then
        if t.extend then Tick(t.(extend := false), fired)
        else Tick(t.(elapsed := e, extend := false, instanceId := NULL_INSTANCE,
                     useTurn := t.useTurn[t.instanceId := gameTurn]), fired)
      else Tick(t.(elapsed := e, extend := false), fired)
  }

  /** The outcome of several ticks with no extension requested in between:
      the final timing state and how many times a handler fired. */
  datatype RunResult = RunResult(timer: Timer, fires: nat)

  function Run(t: Timer, catalog: seq<InstanceInfo>, turns: seq<int>): (r: RunResult)
    requires |catalog| == INSTANCE_INFO_COUNT && WellFormed(t)
    ensures WellFormed(r.timer) && |r.timer.useTurn| == |t.useTurn|
    ensures r.fires <= |turns|
    decreases |turns|
  {
    if turns == [] then RunResult(t, 0)
    else
      var s := Step(t, catalog, turns[0]);
      var rest := Run(s.next, catalog, turns[1..]);
      RunResult(rest.timer, rest.fires + if s.fired.Some? then 1 else 0)
  }

  /** An instance that is running and has no extension pending retires after
      exactly `completionTick - elapsed` ticks: its counter ends at the
      completion tick, its use-turn slot holds the last of those turns, and
      its handler has fired once if the trigger tick was still ahead (and it
      has a handler), otherwise never. */
  lemma {:induction false} RunToCompletion(t: Timer, catalog: seq<InstanceInfo>, turns: seq<int>)
    requires |catalog| == INSTANCE_INFO_COUNT && WellFormed(t)
    requires t.instanceId != NULL_INSTANCE && !t.extend
    requires 0 <= t.elapsed < t.completionTick
    requires |turns| == t.completionTick - t.elapsed
    ensures Run(t, catalog, turns).timer.instanceId == NULL_INSTANCE
    ensures Run(t, catalog, turns).timer.elapsed == t.completionTick
    ensures Run(t, catalog, turns).timer.useTurn == t.useTurn[t.instanceId := turns[|turns| - 1]]
    ensures Run(t, catalog, turns).fires ==
              if t.elapsed < t.triggerTick <= t.completionTick && catalog[InfoIndex(t.instanceId)].handler.Some?
              then 1 else 0
    decreases |turns|
  {
    var s := Step(t, catalog, turns[0]);
    if |turns| == 1 {
      assert turns[1..] == [];
    } else {
      RunToCompletion(s.next, catalog, turns[1..]);
      assert turns[1..][|turns[1..]| - 1] == turns[|turns| - 1];
    }
  }

  /** An instance started with trigger tick 3 and completion tick 5, run for
      five turns without an extension: its handler fires once and it retires
      on the fifth turn, stamped with that turn. */
  lemma TriggerThreeCompleteFive(id: int, useTurn: seq<int>, catalog: seq<InstanceInfo>, turns: seq<int>)
    requires |catalog| == INSTANCE_INFO_COUNT && 0 < id < |useTurn|
    requires catalog[InfoIndex(id)].handler.Some? && |turns| == 5
    ensures var r := Run(Timer(id, 0, 3, 5, false, useTurn), catalog, turns);
            && r.fires == 1 && r.timer.instanceId == NULL_INSTANCE && r.timer.useTurn[id] == turns[4]
  {
    RunToCompletion(Timer(id, 0, 3, 5, false, useTurn), catalog, turns);
  }

  /** An extension requested before the completion tick makes the instance
      stay one tick: the counter falls back, the flag is consumed, and the
      next tick retires the instance. */
  lemma ExtensionDelaysRetirement(t: Timer, catalog: seq<InstanceInfo>, turn1: int, turn2: int)
    requires |catalog| == INSTANCE_INFO_COUNT && WellFormed(t)
    requires t.instanceId != NULL_INSTANCE && t.extend && t.elapsed + 1 == t.completionTick
    ensures Step(t, catalog, turn1).next.instanceId == t.instanceId
    ensures Step(t, catalog, turn1).next.elapsed == t.elapsed
    ensures !Step(t, catalog, turn1).next.extend
    ensures Step(Step(t, catalog, turn1).next, catalog, turn2).next.instanceId == NULL_INSTANCE
    ensures Step(Step(t, catalog, turn1).next, catalog, turn2).next.useTurn == t.useTurn[t.instanceId := turn2]
  {
  }

  /** When the trigger tick is the completion tick, an extension taken at
      that tick makes the handler fire a second time on the following tick. */
  lemma ExtensionAtTriggerRefires(t: Timer, catalog: seq<InstanceInfo>, turn1: int, turn2: int)
    requires |catalog| == INSTANCE_INFO_COUNT && WellFormed(t)
    requires t.instanceId != NULL_INSTANCE && t.extend
    requires t.elapsed + 1 == t.completionTick == t.triggerTick
    requires catalog[InfoIndex(t.instanceId)].handler.Some?
    ensures Step(t, catalog, turn1).fired.Some?
    ensures Step(Step(t, catalog, turn1).next, catalog, turn2).fired.Some?
  {
  }

  /** The per-creature control record (only the fields this model touches). */
  class CreatureControl {
    var instanceId: int
    var elapsed: int
    var triggerTick: int
    var completionTick: int
    var extend: bool
    /** instance_use_turn: the turn each instance last finished. */
    const instanceUseTurn: array<int>
    /** instances: how far each instance has been learned (0: not known). */
    const instances: array<int>
    /** field_DA: index of the current combat target (0 or less: none). */
    var targetIdx: int
    var targetX: int
    var targetY: int
    var expLevel: int
    /** word_8F: coded subtile of the assigned dig task. */
    var digTarget: nat
    /** word_91: index of the assigned dig task in the owner's task list. */
    var digTaskIdx: int

    ghost predicate Valid()
      reads this
    {
      0 <= instanceId < instanceUseTurn.Length
    }

    ghost function TimerState(): Timer
      reads this, instanceUseTurn
    {
      Timer(instanceId, elapsed, triggerTick, completionTick, extend, instanceUseTurn[..])
    }

    constructor (instanceUseTurn: array<int>, instances: array<int>)
      requires instanceUseTurn.Length > 0
      ensures Valid() && instanceId == NULL_INSTANCE && !extend
      ensures this.instanceUseTurn == instanceUseTurn && this.instances == instances
    {
      this.instanceUseTurn, this.instances := instanceUseTurn, instances;
      instanceId := NULL_INSTANCE;
      extend := false;
    }

    /** process_creature_instance: one scheduling tick of this creature.
        The handler call it makes is returned for the caller to perform. */
    method ProcessInstance(catalog: seq<InstanceInfo>, gameTurn: int) returns (fired: Option<HandlerCall>)
      requires Valid() && |catalog| == INSTANCE_INFO_COUNT
      modifies this`instanceId, this`elapsed, this`extend, instanceUseTurn
      ensures Valid()
      ensures TimerState() == Step(old(TimerState()), catalog, gameTurn).next
      ensures fired == Step(old(TimerState()), catalog, gameTurn).fired
    {
      fired := None;
      if instanceId != NULL_INSTANCE {
        elapsed := elapsed + 1;
        if triggerTick == elapsed {
          var info := catalog[InfoIndex(instanceId)];
          if info.handler.Some? {
            fired := Some(HandlerCall(info.handler.value, info.param));
          }
        }
        if completionTick == elapsed {
          if extend {
            elapsed := elapsed - 1;
            extend := false;
            return;
          }
          instanceUseTurn[instanceId] := gameTurn;
          instanceId := NULL_INSTANCE;
        }
        extend := false;
      }
    }

    /** creature_has_ranged_weapon: some learned instance other than
        instance 0 is a ranged weapon. */
    method HasRangedWeapon() returns (r: bool)
      ensures r <==> exists inum :: 1 <= inum < instances.Length && instances[inum] > 0 && IsRangedWeapon(inum)
    {
      var inum := 1;
      while inum < instances.Length
        invariant 1 <= inum
        invariant forall j :: 1 <= j < inum && j < instances.Length ==> !(instances[j] > 0 && IsRangedWeapon(j))
      {
        if instances[inum] > 0 {
          if IsRangedWeapon(inum) {
            return true;
          }
        }
        inum := inum + 1;
      }
      return false;
    }
  }
}
