// The record of which shared structures an export session has already defined, so that
// a definition is written once and later uses only refer to it (CExporter/ExportTracker.cs).
module ExportTracking {

  /** The six kinds of structure the tracker remembers, one identity set each. */
  datatype TrackedKind =
    | Objects     // OBJECT
    | Models      // ATTACH
    | Materials   // NamedCollection<MATERIAL>
    | Actions     // AnimHead
    | Motions     // AnimHead2
    | Points      // NamedCollection<Vector3>

  /**
   * Six hash sets of instances. None of the tracked classes overrides equality, so
   * membership is by reference identity: an instance is the arena index a reference holds.
   */
  class ExportTracker {
    var exportedObjects: set<nat>
    var exportedModels: set<nat>
    var exportedMaterials: set<nat>
    var exportedActions: set<nat>
    var exportedMotions: set<nat>
    var exportedPoints: set<nat>

    /** A new tracker has exported nothing. */
    constructor()
      ensures forall k :: Exported(k) == {}
    {
      exportedObjects, exportedModels, exportedMaterials := {}, {}, {};
      exportedActions, exportedMotions, exportedPoints := {}, {}, {};
    }

    /** The instances of kind `k` exported so far. */
    function Exported(k: TrackedKind): set<nat>
      reads this
    {
      match k
      case Objects => exportedObjects
      case Models => exportedModels
      case Materials => exportedMaterials
      case Actions => exportedActions
      case Motions => exportedMotions
      case Points => exportedPoints
    }

    /**
     * HashSet.Add on the set of kind `k`: true exactly when `id` was not yet there. The
     * instance is a member afterwards, and no other set changes.
     */
    method Add(k: TrackedKind, id: nat) returns (added: bool)
      modifies this
      ensures added <==> id !in old(Exported(k))
      ensures Exported(k) == old(Exported(k)) + {id}
      ensures forall k' :: k' != k ==> Exported(k') == old(Exported(k'))
    {
      added := id !in Exported(k);
      match k
      case Objects => exportedObjects := exportedObjects + {id};
      case Models => exportedModels := exportedModels + {id};
      case Materials => exportedMaterials := exportedMaterials + {id};
      case Actions => exportedActions := exportedActions + {id};
      case Motions => exportedMotions := exportedMotions + {id};
      case Points => exportedPoints := exportedPoints + {id};
    }
  }

  /**
   * Adding the same instance twice: the second Add answers false and changes nothing,
   * so a definition is never written twice in one session.
   */
  method AddTwice(tracker: ExportTracker, k: TrackedKind, id: nat) returns (first: bool, second: bool)
    modifies tracker
    ensures first <==> id !in old(tracker.Exported(k))
    ensures !second
    ensures forall k' :: tracker.Exported(k') == old(tracker.Exported(k')) + (if k' == k then {id} else {})
  {
    first := tracker.Add(k, id);
    ghost var between := tracker.Exported(k);
    second := tracker.Add(k, id);
    assert tracker.Exported(k) == between;
  }
}
