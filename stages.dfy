/**
  The region development pipeline: five stages in a fixed order, the four
  completion flags derived from a stage name, and the update guard that
  forbids skipping a stage (RegionController).
*/
module Stages {
  import opened Wrappers

  datatype Stage = Data | Design | Rab | Permits | Completed

  /** The order `data -> design -> rab -> permits -> completed`, shared by the
      flag derivation and the update guard. */
  const StageOrder: seq<Stage> := [Data, Design, Rab, Permits, Completed]

  /** The stage names as stored in the `stage` column and sent by clients. */
  const StageNames: seq<string> := ["data", "design", "rab", "permits", "completed"]

  function Name(s: Stage): string {
    match s
    case Data => "data"
    case Design => "design"
    case Rab => "rab"
    case Permits => "permits"
    case Completed => "completed"
  }

  /** Position of a stage in the pipeline. */
  function Index(s: Stage): (i: nat)
    ensures i < |StageOrder| && StageOrder[i] == s
    ensures StageNames[i] == Name(s)
  {
    match s
    case Data => 0
    case Design => 1
    case Rab => 2
    case Permits => 3
    case Completed => 4
  }

  /** PHP's `array_search` over the stage names: the first position holding
      `name`, or `None` where PHP returns `false`. Its loose `==` between two
      strings compares them as numbers only when both are numeric, and none
      of the five names is, so here it is plain string equality. */
  function Search(name: string, order: seq<string>): (r: Option<nat>)
    ensures r.Some? ==> r.value < |order| && order[r.value] == name
    ensures r.Some? ==> forall j :: 0 <= j < r.value ==> order[j] != name
    ensures r.None? <==> name !in order
  {
    if order == [] then None
    else if order[0] == name then Some(0)
    else match Search(name, order[1..])
      case None => None
      case Some(k) => Some(k + 1)
  }

  /** The stage a name denotes, if any. */
  function Parse(name: string): (r: Option<Stage>)
    ensures r.Some? <==> name in StageNames
    ensures r.Some? ==> Name(r.value) == name
  {
    match name
    case "data" => Some(Data)
    case "design" => Some(Design)
    case "rab" => Some(Rab)
    case "permits" => Some(Permits)
    case "completed" => Some(Completed)
    case _ => None
  }

  lemma NameIsInjective(s: Stage, t: Stage)
    ensures Name(s) == Name(t) ==> s == t
  {
    if Name(s) == Name(t) {
      assert Name(s)[0] == Name(t)[0];
      if s == Permits || t == Permits {
        assert Name(s)[..2] == Name(t)[..2];
      }
      if s == Data || t == Data || s == Design || t == Design {
        assert Name(s)[..2] == Name(t)[..2];
      }
    }
  }

  /** Searching the stage order for a stage's name finds exactly its index. */
  lemma SearchName(s: Stage)
    ensures Search(Name(s), StageNames) == Some(Index(s))
    ensures Parse(Name(s)) == Some(s)
  {
    var r := Search(Name(s), StageNames);
    assert Name(s) in StageNames by { assert StageNames[Index(s)] == Name(s); }
    var k := r.value;
    assert StageNames[k] == Name(StageOrder[k]);
    NameIsInjective(StageOrder[k], s);
    var p := Parse(Name(s)).value;
    NameIsInjective(p, s);
  }

  /** Every name the search finds is the name of the stage at that index. */
  lemma SearchFindsStage(name: string)
    ensures Search(name, StageNames).Some? <==> Parse(name).Some?
    ensures Search(name, StageNames).Some? ==>
              Search(name, StageNames).value == Index(Parse(name).value)
  {
    if Parse(name).Some? {
      SearchName(Parse(name).value);
    }
  }

  /** The four completion flags of a region. */
  datatype Flags = Flags(dataCompleted: bool, designCompleted: bool, rabCompleted: bool, permitsCompleted: bool)

  /** The flags the controller derives from a stage name, each one an
      `in_array` test against the stages that imply it. */
  function FlagsFor(stage: string): (f: Flags)
    ensures Parse(stage).Some? ==>
              f == Flags(true, Index(Parse(stage).value) >= 1, Index(Parse(stage).value) >= 2,
                         Index(Parse(stage).value) >= 3)
    ensures Parse(stage).None? ==> f == Flags(false, false, false, false)
  {
    Flags(stage in ["data", "design", "rab", "permits", "completed"],
          stage in ["design", "rab", "permits", "completed"],
          stage in ["rab", "permits", "completed"],
          stage in ["permits", "completed"])
  }

  /** Flag i of a valid stage is set exactly when i <= the stage's index. */
  lemma FlagsByIndex(s: Stage)
    ensures FlagsFor(Name(s)) ==
              Flags(0 <= Index(s), 1 <= Index(s), 2 <= Index(s), 3 <= Index(s))
  {
    var n := Name(s);
    forall t: Stage ensures Name(t) == n <==> t == s {
      NameIsInjective(s, t);
    }
    assert "data" == Name(Data) && "design" == Name(Design) && "rab" == Name(Rab);
    assert "permits" == Name(Permits) && "completed" == Name(Completed);
  }

  /** For any name at all, the flags are monotone: a later flag implies every
      earlier one. */
  lemma FlagsMonotone(stage: string)
    ensures FlagsFor(stage).permitsCompleted ==> FlagsFor(stage).rabCompleted
    ensures FlagsFor(stage).rabCompleted ==> FlagsFor(stage).designCompleted
    ensures FlagsFor(stage).designCompleted ==> FlagsFor(stage).dataCompleted
  {
  }

  /** A name outside the pipeline yields four false flags. */
  lemma FlagsOfUnknownName(stage: string)
    requires stage !in StageNames
    ensures FlagsFor(stage) == Flags(false, false, false, false)
  {
  }

  /** The update guard of RegionController: the requested stage index exceeds
      the current index plus one. A name that `array_search` does not find
      yields `false`, and `false > current + 1` is false in PHP, so such a
      name passes the guard (validation rejects it later). */
  function SkipsStage(current: Stage, requested: string): (r: bool)
    ensures r <==> exists s: Stage :: Name(s) == requested && Index(s) > Index(current) + 1
  {
    SearchFindsStage(requested);
    match Search(requested, StageNames)
    case Some(n) => n > Index(current) + 1
    case None => false
  }

  /** The guard lets through staying put, one step forward and any step back. */
  lemma GuardAllowsAtMostOneStep(current: Stage, target: Stage)
    ensures !SkipsStage(current, Name(target)) <==> Index(target) <= Index(current) + 1
  {
    forall s: Stage | Name(s) == Name(target) ensures s == target {
      NameIsInjective(s, target);
    }
  }

  /** From `completed` no stage name is rejected by the guard. */
  lemma CompletedNeverSkips(requested: string)
    ensures !SkipsStage(Completed, requested)
  {
  }

  /** `data -> rab` skips `design` and is rejected. */
  lemma DataToRabSkips()
    ensures SkipsStage(Data, "rab")
    ensures !SkipsStage(Data, "design") && !SkipsStage(Data, "data")
    ensures !SkipsStage(Completed, "data")
  {
    assert Name(Rab) == "rab";
  }
}
