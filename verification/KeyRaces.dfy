/**
  Creating and deleting spaces at the same time. A creation inserts its row, makes the directory and only then puts the key
  into memory; a deletion removes the row and then the key. Spaces do not affect each other, ids are never used twice, and a
  run is any sequence of steps.
 */
module KeyRaces {
  import opened ByteStrings

  datatype Creation = Inserted | Made | Stored | Undoing | Failed

  datatype Deletion = NotDeleted | RowGone | Finished

  /** One space: its key, how far creation and deletion are, whether its row is in the table and its key in memory. */
  datatype Space = Space(key: Bytes, creation: Creation, deletion: Deletion, row: bool, held: bool, late: bool)

  type State = map<string, Space>

  /** A key is put in `late` when the deletion of its space was through before. */
  datatype Action = MakeDirectory(ok: bool) | PutKey | UndoRow | DeleteRow | DropKey

  datatype Step = Insert(id: string, key: Bytes) | OnSpace(id: string, action: Action)

  function Act(s: Space, action: Action): Space {
    match action
    case MakeDirectory(ok) => if s.creation.Inserted? then s.(creation := if ok then Made else Undoing) else s
    case PutKey => if s.creation.Made? then s.(creation := Stored, held := true, late := s.deletion.Finished?) else s
    case UndoRow => if s.creation.Undoing? then s.(creation := Failed, row := false) else s
    case DeleteRow => if s.row then s.(row := false, deletion := RowGone) else s
    case DropKey => if s.deletion.RowGone? then s.(deletion := Finished, held := false) else s
  }

  function Apply(s: State, step: Step): State {
    match step
    case Insert(id, key) => if id in s then s else s[id := Space(key, Inserted, NotDeleted, true, false, false)]
    case OnSpace(id, action) => if id in s then s[id := Act(s[id], action)] else s
  }

  function Run(steps: seq<Step>): State {
    if steps == [] then map[] else Apply(Run(steps[..|steps| - 1]), steps[|steps| - 1])
  }

  predicate SpaceOk(s: Space) {
    && (s.row ==> s.deletion.NotDeleted? && !s.creation.Failed?)
    && (s.held ==> s.creation.Stored?)
    && (s.late ==> s.creation.Stored? && s.deletion.Finished? && s.held)
    && (s.creation.Stored? ==> (s.held <==> !s.deletion.Finished? || s.late))
    && (!s.row && s.deletion.NotDeleted? ==> s.creation.Failed?)
  }

  lemma {:induction false} RunKeeps(steps: seq<Step>, id: string)
    ensures id in Run(steps) ==> SpaceOk(Run(steps)[id])
  {
    if steps != [] {
      RunKeeps(steps[..|steps| - 1], id);
    }
  }

  /** No call on a space is under way. */
  predicate Quiet(s: Space) {
    (s.creation.Stored? || s.creation.Failed?) && !s.deletion.RowGone?
  }

  /** The keys in memory, and the keys a restart would load from the rows. */
  function Held(s: State): map<string, Bytes> {
    map id | id in s && s[id].held :: s[id].key
  }

  function FromRows(s: State): map<string, Bytes> {
    map id | id in s && s[id].row :: s[id].key
  }

  /** A space whose creation has returned and whose row is there can be read: its key is in memory, at any moment of any run. */
  lemma LiveSpacesAreHeld(steps: seq<Step>, id: string)
    ensures var s := Run(steps);
      id in s && s[id].row && s[id].creation.Stored? ==> id in Held(s) && Held(s)[id] == s[id].key
  {
    RunKeeps(steps, id);
  }

  /** When no call is under way, a restart would find exactly the keys in memory if and only if no key was put in late. */
  lemma RestartInvisibleIffNoneLate(steps: seq<Step>)
    requires forall id :: id in Run(steps) ==> Quiet(Run(steps)[id])
    ensures var s := Run(steps);
      Held(s) == FromRows(s) <==> forall id :: id in s ==> !s[id].late
  {
    var s := Run(steps);
    forall id | id in s ensures (id in Held(s) <==> id in FromRows(s)) <==> !s[id].late {
      RunKeeps(steps, id);
    }
    if Held(s) == FromRows(s) {
      forall id | id in s ensures !s[id].late {
        assert id in Held(s) <==> id in FromRows(s);
      }
    }
  }

  function Overtaken(id: string, key: Bytes): seq<Step> {
    [Insert(id, key)] + [OnSpace(id, MakeDirectory(true))] + [OnSpace(id, DeleteRow)] + [OnSpace(id, DropKey)] + [OnSpace(id, PutKey)]
  }

  lemma RunOn(steps: seq<Step>, step: Step)
    ensures Run(steps + [step]) == Apply(Run(steps), step)
  {
    assert (steps + [step])[..|steps|] == steps;
  }

  /** A deletion that overtakes the creation leaves a key in memory that no row has, until the next restart. */
  lemma OvertakenCreationLeavesAKey(id: string, key: Bytes)
    ensures var s := Run(Overtaken(id, key));
      && s == map[id := Space(key, Stored, Finished, false, true, true)]
      && Held(s) == map[id := key] && FromRows(s) == map[]
  {
    var one := [Insert(id, key)];
    var two := one + [OnSpace(id, MakeDirectory(true))];
    var three := two + [OnSpace(id, DeleteRow)];
    var four := three + [OnSpace(id, DropKey)];
    assert [] + one == one;
    RunOn([], one[0]);
    RunOn(one, OnSpace(id, MakeDirectory(true)));
    RunOn(two, OnSpace(id, DeleteRow));
    RunOn(three, OnSpace(id, DropKey));
    RunOn(four, OnSpace(id, PutKey));
  }
}
