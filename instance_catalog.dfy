/** The static side of creature instances: the table of instance
    descriptors, its bounds-checked lookup, the table that binds handler
    names from the configuration to handler functions, and the fixed set of
    instances that count as ranged weapons. */
module InstanceCatalog {
  import opened Common

  /** The instance handler functions of the creature instance engine. */
  datatype Handler =
    | AttackRoomSlab | CastSpell | FireShot | DamageWall | Destroy | Dig | Eat
    | Fart | FirstPersonDoImpTask | PrettyPath | Reinforce | Tortured | Tunnel

  /** One descriptor of the instance table: its handler (None for instances
      that do nothing when they trigger) and the parameter handed to it. */
  datatype InstanceInfo = InstanceInfo(handler: Option<Handler>, param: int)

  /** Number of entries in the instance descriptor table. */
  const INSTANCE_INFO_COUNT: nat := 48

  /** creature_instance_info_get_ptr: the table entry used for `instIdx`.
      An out-of-range index falls back to entry 0 instead of failing. */
  function InfoIndex(instIdx: int): (r: nat)
    ensures r < INSTANCE_INFO_COUNT
    ensures 0 <= instIdx < INSTANCE_INFO_COUNT ==> r == instIdx
    ensures !(0 <= instIdx < INSTANCE_INFO_COUNT) ==> r == 0
  {
    if instIdx < 0 || instIdx >= INSTANCE_INFO_COUNT then 0 else instIdx
  }

  /** creature_instance_info_invalid: the entry lies below entry 1 of the
      table, which for an entry of the table means it is the fallback entry. */
  function InfoInvalid(entry: nat): (r: bool)
    ensures r <==> entry == 0
  {
    entry < 1
  }

  /** An entry handed out by the lookup is invalid exactly when the index
      asked for was 0 or outside the table. */
  lemma LookupInvalidIff(instIdx: int)
    ensures InfoInvalid(InfoIndex(instIdx)) <==> !(1 <= instIdx < INSTANCE_INFO_COUNT)
  {
  }

  /** An entry of a name table such as creature_instances_func_type. */
  datatype NamedCommand = NamedCommand(name: string, num: int)

  /** creature_instances_func_type, without its NULL terminator. */
  const FuncTypes: seq<NamedCommand> := [
    NamedCommand("attack_room_slab", 1),
    NamedCommand("creature_cast_spell", 2),
    NamedCommand("creature_fire_shot", 3),
    NamedCommand("creature_damage_wall", 4),
    NamedCommand("creature_destroy", 5),
    NamedCommand("creature_dig", 6),
    NamedCommand("creature_eat", 7),
    NamedCommand("creature_fart", 8),
    NamedCommand("first_person_do_imp_task", 9),
    NamedCommand("creature_pretty_path", 10),
    NamedCommand("creature_reinforce", 11),
    NamedCommand("creature_tortured", 12),
    NamedCommand("creature_tunnel", 13),
    NamedCommand("none", 14)
  ]

  /** creature_instances_func_list: the handler bound to each function id. */
  const FuncList: seq<Option<Handler>> := [
    None,
    Some(AttackRoomSlab),
    Some(CastSpell),
    Some(FireShot),
    Some(DamageWall),
    Some(Destroy),
    Some(Dig),
    Some(Eat),
    Some(Fart),
    Some(FirstPersonDoImpTask),
    Some(PrettyPath),
    Some(Reinforce),
    Some(Tortured),
    Some(Tunnel),
    None,
    None
  ]

  /** Looks a name up in a name table, scanning from entry `from` on. */
  function FindName(table: seq<NamedCommand>, name: string, from: nat): (r: Option<int>)
    requires from <= |table|
    ensures r.Some? <==> exists k :: from <= k < |table| && table[k].name == name
    ensures r.Some? ==> exists k :: from <= k < |table| && table[k] == NamedCommand(name, r.value)
    decreases |table| - from
  {
    if from == |table| then None
    else if table[from].name == name then Some(table[from].num)
    else FindName(table, name, from + 1)
  }

  ghost predicate NamesDistinct(table: seq<NamedCommand>)
  {
    forall a, b :: 0 <= a < b < |table| ==> table[a].name != table[b].name
  }

  /** In a table whose names are distinct, looking up an entry's name gives
      back that entry's number. */
  lemma {:induction false} FindNameRoundTrip(table: seq<NamedCommand>, k: nat, from: nat)
    requires NamesDistinct(table)
    requires from <= k < |table|
    ensures FindName(table, table[k].name, from) == Some(table[k].num)
    decreases k - from
  {
    if from < k {
      assert table[from].name != table[k].name;
      FindNameRoundTrip(table, k, from + 1);
    }
  }

  /** The handler-name table and the handler table agree: the names carry
      the consecutive ids 1..14, every id names a slot of the handler table,
      every name but "none" is bound to a handler, and no handler is bound
      twice. */
  lemma FuncTablesAgree()
    ensures |FuncList| == 16 && FuncList[0] == None
    ensures forall k :: 0 <= k < |FuncTypes| ==> FuncTypes[k].num == k + 1 && FuncTypes[k].num < |FuncList|
    ensures forall k :: 0 <= k < |FuncTypes| ==>
              (FuncList[FuncTypes[k].num].None? <==> FuncTypes[k].name == "none")
    ensures forall i, j :: 0 <= i < j < |FuncList| && FuncList[i].Some? ==> FuncList[i] != FuncList[j]
  {
  }

  /** Resolving a configured handler name: each name of the table resolves
      to its own id, and a name outside the table resolves to nothing. */
  lemma ResolveFuncName(name: string)
    ensures (exists k :: 0 <= k < |FuncTypes| && FuncTypes[k].name == name) ==>
              exists k :: 0 <= k < |FuncTypes| && FuncTypes[k].name == name &&
                          FindName(FuncTypes, name, 0) == Some(k + 1)
    ensures (forall k :: 0 <= k < |FuncTypes| ==> FuncTypes[k].name != name) ==>
              FindName(FuncTypes, name, 0) == None
  {
    if k :| 0 <= k < |FuncTypes| && FuncTypes[k].name == name {
      assert NamesDistinct(FuncTypes);
      FindNameRoundTrip(FuncTypes, k, 0);
    }
  }

  /** The instances that are ranged weapons. */
  const RangedWeaponInstances: set<int> := {4, 5, 6, 9, 12, 17, 19, 20, 27}

  /** instance_is_ranged_weapon: its switch accepts exactly the listed set. */
  function IsRangedWeapon(inum: int): (r: bool)
    ensures r <==> inum in RangedWeaponInstances
  {
    match inum
    case 4 => true
    case 5 => true
    case 6 => true
    case 9 => true
    case 12 => true
    case 17 => true
    case 19 => true
    case 20 => true
    case 27 => true
    case _ => false
  }

}
