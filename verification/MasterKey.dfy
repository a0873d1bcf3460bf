/**
  Key wrapping and the first-boot protocol. Any number of processes load the one
  database row, or generate a key, insert it unless a row is there, and read it back;
  a run is any sequence of their steps.
 */
module MasterKey {
  import opened ByteStrings
  import opened Crypto

  const WRAPPED_KEY_LEN := 60

  function Wrap(a: Aead, wrappingKey: Bytes, nonce: Bytes, key: Bytes): Bytes {
    nonce + a.seal(wrappingKey, nonce, key)
  }

  function Unwrap(a: Aead, wrappingKey: Bytes, blob: Bytes): Option<Bytes> {
    if |blob| != WRAPPED_KEY_LEN then None
    else
      match a.open(wrappingKey, blob[..NONCE_LEN], blob[NONCE_LEN..])
      case None => None
      case Some(key) => if |key| != KEY_LEN then None else Some(key)
  }

  lemma UnwrapUndoesWrap(a: Aead, wrappingKey: Bytes, nonce: Bytes, key: Bytes)
    requires LawfulAead(a) && |nonce| == NONCE_LEN && |key| == KEY_LEN
    ensures Unwrap(a, wrappingKey, Wrap(a, wrappingKey, nonce, key)) == Some(key)
  {
    assert SealedOpens(a, wrappingKey, nonce, key);
    var blob := Wrap(a, wrappingKey, nonce, key);
    assert blob[..NONCE_LEN] == nonce && blob[NONCE_LEN..] == a.seal(wrappingKey, nonce, key);
  }

  /** Sixty bytes that open to a key of thirty-two, and nothing else, unwrap. */
  lemma UnwrapsExactly(a: Aead, wrappingKey: Bytes, blob: Bytes, key: Bytes)
    ensures Unwrap(a, wrappingKey, blob) == Some(key) <==>
      |blob| == 60 && |key| == 32 && a.open(wrappingKey, blob[..12], blob[12..]) == Some(key)
  {
  }

  /** When only sealed bytes open, what unwraps to a key is that key wrapped. */
  lemma UnwrappedWasWrapped(a: Aead, wrappingKey: Bytes, blob: Bytes, key: Bytes)
    requires LawfulAead(a)
    requires |blob| >= 12 ==> forall p :: a.open(wrappingKey, blob[..12], blob[12..]) == Some(p) ==> blob[12..] == a.seal(wrappingKey, blob[..12], p)
    ensures Unwrap(a, wrappingKey, blob) == Some(key) <==>
      |key| == 32 && exists nonce :: |nonce| == 12 && blob == Wrap(a, wrappingKey, nonce, key)
  {
    if Unwrap(a, wrappingKey, blob) == Some(key) {
      assert blob == Wrap(a, wrappingKey, blob[..12], key);
    }
    forall nonce | |nonce| == 12 && |key| == 32 && blob == Wrap(a, wrappingKey, nonce, key)
      ensures Unwrap(a, wrappingKey, blob) == Some(key)
    {
      UnwrapUndoesWrap(a, wrappingKey, nonce, key);
    }
  }

  datatype Process =
    | Booting
    | Generated(key: Bytes, blob: Bytes)
    | Inserted(key: Bytes, blob: Bytes)
    | Returned(key: Bytes)
    | Failed

  datatype State = State(row: Option<Bytes>, processes: seq<Process>)

  /** `key` and `nonce` are what the generator draws if it comes to that. */
  datatype Step = Load(p: nat, key: Bytes, nonce: Bytes) | Insert(p: nat) | Reread(p: nat) | DatabaseError(p: nat)

  ghost predicate Possible(step: Step) {
    step.Load? ==> |step.key| == KEY_LEN && |step.nonce| == NONCE_LEN
  }

  /** One step of one process; a step that is not due changes nothing. */
  function Apply(a: Aead, secret: Bytes, s: State, step: Step): State {
    if step.p >= |s.processes| then s
    else
      match (step, s.processes[step.p])
      case (Load(p, key, nonce), Booting) =>
        var outcome :=
          if s.row.None? then Generated(key, Wrap(a, secret, nonce, key))
          else match Unwrap(a, secret, s.row.value) case Some(k) => Returned(k) case None => Failed;
        s.(processes := s.processes[p := outcome])
      case (Insert(p), Generated(key, blob)) =>
        State(if s.row.None? then Some(blob) else s.row, s.processes[p := Inserted(key, blob)])
      case (Reread(p), Inserted(key, blob)) =>
        s.(processes := s.processes[p := if s.row == Some(blob) then Returned(key) else Failed])
      case (DatabaseError(p), process) =>
        if process.Returned? then s else s.(processes := s.processes[p := Failed])
      case _ => s
  }

  function Run(a: Aead, secret: Bytes, s: State, steps: seq<Step>): State
    decreases |steps|
  {
    if steps == [] then s else Run(a, secret, Apply(a, secret, s, steps[0]), steps[1..])
  }

  /** Every key returned unwraps from the row; every key pending unwraps from its own blob. */
  ghost predicate Agreed(a: Aead, secret: Bytes, s: State) {
    forall p :: 0 <= p < |s.processes| ==>
      match s.processes[p]
      case Returned(key) => s.row.Some? && Unwrap(a, secret, s.row.value) == Some(key)
      case Generated(key, blob) => Unwrap(a, secret, blob) == Some(key)
      case Inserted(key, blob) => s.row.Some? && Unwrap(a, secret, blob) == Some(key)
      case _ => true
  }

  lemma ApplyKeepsAgreement(a: Aead, secret: Bytes, s: State, step: Step)
    requires LawfulAead(a) && Agreed(a, secret, s) && Possible(step)
    ensures Agreed(a, secret, Apply(a, secret, s, step))
    ensures s.row.Some? ==> Apply(a, secret, s, step).row == s.row
  {
    if step.Load? {
      UnwrapUndoesWrap(a, secret, step.nonce, step.key);
    }
  }

  lemma {:induction false} RunKeepsAgreement(a: Aead, secret: Bytes, s: State, steps: seq<Step>)
    requires LawfulAead(a) && Agreed(a, secret, s)
    requires forall i :: 0 <= i < |steps| ==> Possible(steps[i])
    ensures Agreed(a, secret, Run(a, secret, s, steps))
    ensures s.row.Some? ==> Run(a, secret, s, steps).row == s.row
    decreases |steps|
  {
    if steps != [] {
      ApplyKeepsAgreement(a, secret, s, steps[0]);
      RunKeepsAgreement(a, secret, Apply(a, secret, s, steps[0]), steps[1..]);
    }
  }

  ghost predicate FreshBoot(s: State) {
    forall p :: 0 <= p < |s.processes| ==> s.processes[p].Booting?
  }

  /**
    Whatever the interleaving, and whether or not a row was there before, all processes
    that return hold one key, the row unwraps to it, and no later step changes the row.
   */
  lemma AllReturnedKeysAgree(a: Aead, secret: Bytes, s: State, steps: seq<Step>, more: seq<Step>, p: nat, q: nat)
    requires LawfulAead(a) && FreshBoot(s)
    requires forall i :: 0 <= i < |steps| ==> Possible(steps[i])
    requires forall i :: 0 <= i < |more| ==> Possible(more[i])
    ensures var t := Run(a, secret, s, steps);
      p < |t.processes| && q < |t.processes| && t.processes[p].Returned? && t.processes[q].Returned? ==>
        && t.processes[p].key == t.processes[q].key
        && t.row.Some? && Unwrap(a, secret, t.row.value) == Some(t.processes[p].key)
        && Run(a, secret, t, more).row == t.row
  {
    RunKeepsAgreement(a, secret, s, steps);
    RunKeepsAgreement(a, secret, Run(a, secret, s, steps), more);
  }

  /** A process that lost the race and is restarted returns the stored key as soon as it loads. */
  lemma RestartLoadsTheKey(a: Aead, secret: Bytes, s: State, steps: seq<Step>, p: nat, again: Step)
    requires LawfulAead(a) && FreshBoot(s)
    requires forall i :: 0 <= i < |steps| ==> Possible(steps[i])
    ensures var t := Run(a, secret, s, steps);
      p < |t.processes| && t.processes[p].Returned? && again.Load? && again.p < |t.processes| && again.p != p ==>
        var restarted := t.(processes := t.processes[again.p := Booting]);
        Apply(a, secret, restarted, again).processes[again.p] == t.processes[p]
  {
    RunKeepsAgreement(a, secret, s, steps);
  }

  // Who returns.

  /** A process that finds a row returns what it unwraps to, or fails if it does not unwrap. */
  lemma LoadingReturnsTheRow(a: Aead, secret: Bytes, s: State, p: nat, key: Bytes, nonce: Bytes)
    requires p < |s.processes| && s.processes[p].Booting? && s.row.Some?
    ensures var t := Apply(a, secret, s, Load(p, key, nonce));
      && t.row == s.row
      && t.processes[p] == match Unwrap(a, secret, s.row.value) case Some(k) => Returned(k) case None => Failed
  {
  }

  lemma {:induction false} OthersLeaveTheRow(a: Aead, secret: Bytes, s: State, steps: seq<Step>, p: nat)
    requires s.row.Some? && p < |s.processes| && forall i :: 0 <= i < |steps| ==> steps[i].p != p
    ensures var t := Run(a, secret, s, steps);
      t.row == s.row && |t.processes| == |s.processes| && t.processes[p] == s.processes[p]
    decreases |steps|
  {
    if steps != [] {
      OthersLeaveTheRow(a, secret, Apply(a, secret, s, steps[0]), steps[1..], p);
    }
  }

  /**
    On an empty row the process whose insert comes first returns the key it generated, and the row is that key wrapped,
    whatever the others do between its insert and its reread.
   */
  lemma WinnerReturnsItsKey(a: Aead, secret: Bytes, s: State, p: nat, key: Bytes, nonce: Bytes, between: seq<Step>)
    requires LawfulAead(a) && |key| == KEY_LEN && |nonce| == NONCE_LEN
    requires p < |s.processes| && s.processes[p].Booting? && s.row.None?
    requires forall i :: 0 <= i < |between| ==> between[i].p != p
    ensures var inserted := Apply(a, secret, Apply(a, secret, s, Load(p, key, nonce)), Insert(p));
      var t := Apply(a, secret, Run(a, secret, inserted, between), Reread(p));
      && |t.processes| == |s.processes| && t.processes[p] == Returned(key)
      && t.row.Some? && Unwrap(a, secret, t.row.value) == Some(key)
  {
    UnwrapUndoesWrap(a, secret, nonce, key);
    OthersLeaveTheRow(a, secret, Apply(a, secret, Apply(a, secret, s, Load(p, key, nonce)), Insert(p)), between, p);
  }

  /** A process whose insert found a row returns only if that row is its own. */
  lemma LoserFails(a: Aead, secret: Bytes, s: State, p: nat, between: seq<Step>)
    requires p < |s.processes| && s.processes[p].Generated? && s.row.Some? && s.row.value != s.processes[p].blob
    requires forall i :: 0 <= i < |between| ==> between[i].p != p
    ensures var t := Apply(a, secret, Run(a, secret, Apply(a, secret, s, Insert(p)), between), Reread(p));
      |t.processes| == |s.processes| && t.processes[p].Failed? && t.row == s.row
  {
    OthersLeaveTheRow(a, secret, Apply(a, secret, s, Insert(p)), between, p);
  }

  /** A database error fails any process that has not returned, and leaves the row alone. */
  lemma AnyProcessCanFail(a: Aead, secret: Bytes, s: State, p: nat)
    requires p < |s.processes| && !s.processes[p].Returned?
    ensures Apply(a, secret, s, DatabaseError(p)) == State(s.row, s.processes[p := Failed])
  {
  }
}
