/** Payment receipts of UAFE forms: a row per receipt in the database, an object per row in the store.

    No transaction spans the two. Each step is one statement or one store request of one call; calls
    interleave freely, any of them may fail or be left where it is for ever. */
module Receipts {
  import opened Delivery
  import opened Wrappers

  datatype FormId = FormId(uuid: string)
  datatype RowId = RowId(uuid: string)
  datatype Key = Key(path: string)
  datatype UserId = UserId(uuid: string)
  type CallId = nat

  datatype Receipt = Receipt(formId: FormId, s3Key: Key)

  const MAX_COMPROBANTES := 5

  /** A call, between two of its requests. */
  datatype Call =
    | Adding(form: FormId, left: nat)
    | Uploaded(form: FormId, left: nat, key: Key)
    | RemovingOne(form: FormId, row: RowId)
    | FoundOne(row: RowId, key: Key)
    | RemovingForm(form: FormId, keys: set<Key>)
    | Deleting(keys: set<Key>)
    | Finished

  /** `drawn` remembers every key that was ever in the store. */
  datatype State = State(
    forms: map<FormId, Option<UserId>>,
    rows: map<RowId, Receipt>,
    objects: set<Key>,
    calls: map<CallId, Call>,
    drawn: set<Key>)

  datatype Action =
    | BeginAdd(id: CallId, user: UserId, seesAll: bool, form: FormId, files: nat)
    | BeginRemoveOne(id: CallId, user: UserId, seesAll: bool, form: FormId, row: RowId)
    | BeginRemoveForm(id: CallId, user: UserId, seesAll: bool, form: FormId)
    | Advance(id: CallId, key: Key, row: RowId, fate: Fate)

  predicate Owned(s: State, form: FormId, user: UserId, seesAll: bool) {
    form in s.forms && (seesAll || s.forms[form] == Some(user))
  }

  function RowsOf(rows: map<RowId, Receipt>, form: FormId): set<RowId> {
    set r | r in rows && rows[r].formId == form
  }

  function KeysOf(rows: map<RowId, Receipt>, form: FormId): set<Key> {
    set r | r in rows && rows[r].formId == form :: rows[r].s3Key
  }

  /** Deleting a form deletes its rows with it. */
  function Cascade(rows: map<RowId, Receipt>, form: FormId): map<RowId, Receipt> {
    map r | r in rows && rows[r].formId != form :: rows[r]
  }

  function SetCall(s: State, id: CallId, call: Call): State {
    s.(calls := s.calls[id := call])
  }

  /** The next request of a call. One that is not answered ends its call, whether it took effect or not; but the
      deletion of an object goes on, its failure is only logged. */
  function Next(s: State, id: CallId, key: Key, row: RowId, fate: Fate): State
    requires id in s.calls
  {
    match s.calls[id]
    case Adding(f, left) =>
      if left == 0 || fate.Lost? then SetCall(s, id, Finished)
      else SetCall(s, id, if fate.Answered? then Uploaded(f, left - 1, key) else Finished)
           .(objects := s.objects + {key}, drawn := s.drawn + {key})
    case Uploaded(f, left, k) =>
      if f !in s.forms || fate.Lost? then SetCall(s, id, Finished)
      else SetCall(s, id, if fate.Answered? then Adding(f, left) else Finished).(rows := s.rows[row := Receipt(f, k)])
    case RemovingOne(f, r) =>
      if r in s.rows && s.rows[r].formId == f && fate.Answered? then SetCall(s, id, FoundOne(r, s.rows[r].s3Key))
      else SetCall(s, id, Finished)
    case FoundOne(r, k) =>
      if r !in s.rows || fate.Lost? then SetCall(s, id, Finished)
      else SetCall(s, id, if fate.Answered? then Deleting({k}) else Finished).(rows := s.rows - {r})
    case RemovingForm(f, keys) =>
      if f !in s.forms || fate.Lost? then SetCall(s, id, Finished)
      else SetCall(s, id, if fate.Answered? then Deleting(keys) else Finished)
           .(forms := s.forms - {f}, rows := Cascade(s.rows, f))
    case Deleting(keys) =>
      SetCall(s, id, Deleting(keys - {key}))
      .(objects := if !fate.Lost? && key in keys then s.objects - {key} else s.objects)
    case Finished => s
  }

  function Step(s: State, a: Action): State {
    match a
    case BeginAdd(id, user, seesAll, f, files) =>
      SetCall(s, id, if Owned(s, f, user, seesAll) && |RowsOf(s.rows, f)| + files <= MAX_COMPROBANTES
                     then Adding(f, files) else Finished)
    case BeginRemoveOne(id, user, seesAll, f, r) =>
      SetCall(s, id, if Owned(s, f, user, seesAll) then RemovingOne(f, r) else Finished)
    case BeginRemoveForm(id, user, seesAll, f) =>
      SetCall(s, id, if Owned(s, f, user, seesAll) then RemovingForm(f, KeysOf(s.rows, f)) else Finished)
    case Advance(id, key, row, fate) => if id in s.calls then Next(s, id, key, row, fate) else s
  }

  /** No row and no call knows the id. */
  predicate UnknownRow(s: State, row: RowId) {
    row !in s.rows && forall i :: i in s.calls && s.calls[i].FoundOne? ==> s.calls[i].row != row
  }

  /** Call ids, row ids and the keys of new uploads are fresh draws. */
  predicate Enabled(s: State, a: Action) {
    match a
    case Advance(id, key, row, _) =>
      && id in s.calls
      && (s.calls[id].Adding? ==> key !in s.drawn)
      && (s.calls[id].Uploaded? ==> UnknownRow(s, row))
    case _ => a.id !in s.calls
  }

  datatype Run = Start(forms: map<FormId, Option<UserId>>, rows: map<RowId, Receipt>, objects: set<Key>)
               | Then(past: Run, action: Action)

  function After(r: Run): State {
    match r
    case Start(forms, rows, objects) => State(forms, rows, objects, map[], objects)
    case Then(past, a) => Step(After(past), a)
  }

  ghost predicate NoDangling(s: State) {
    forall r :: r in s.rows ==> s.rows[r].s3Key in s.objects
  }

  /** No two rows share an object. */
  ghost predicate KeysAreUnshared(s: State) {
    forall r, q :: r in s.rows && q in s.rows && s.rows[r].s3Key == s.rows[q].s3Key ==> r == q
  }

  ghost predicate Valid(r: Run) {
    match r
    case Start(_, _, _) => NoDangling(After(r)) && KeysAreUnshared(After(r))
    case Then(past, a) => Valid(past) && Enabled(After(past), a)
  }

  // ----- why deleting an object is safe -----

  /** The keys a call deletes now or after its next statement. */
  function Doomed(call: Call): set<Key> {
    match call
    case Deleting(keys) => keys
    case RemovingForm(_, keys) => keys
    case FoundOne(_, key) => {key}
    case _ => {}
  }

  /** A row with a doomed key is one that the next statement of the call deletes. */
  predicate Condemned(call: Call, r: RowId, receipt: Receipt) {
    (call.RemovingForm? && receipt.formId == call.form) || (call.FoundOne? && r == call.row)
  }

  ghost predicate DoomedAreSafe(s: State) {
    && (forall id, k :: id in s.calls && k in Doomed(s.calls[id]) ==> k in s.drawn)
    && (forall id, r :: id in s.calls && r in s.rows && s.rows[r].s3Key in Doomed(s.calls[id]) ==>
          Condemned(s.calls[id], r, s.rows[r]))
  }

  /** An upload that has no row yet is in the store, and nobody else's: no row's, no other upload's, not about to be
      deleted. */
  ghost predicate UploadsAreExclusive(s: State) {
    && (forall i :: i in s.calls && s.calls[i].Uploaded? ==> s.calls[i].key in s.objects)
    && (forall i, r :: i in s.calls && s.calls[i].Uploaded? && r in s.rows ==> s.rows[r].s3Key != s.calls[i].key)
    && (forall i, j ::
          (i in s.calls && j in s.calls && s.calls[i].Uploaded? && s.calls[j].Uploaded?
              && s.calls[i].key == s.calls[j].key)
          ==> i == j)
    && (forall i, j :: i in s.calls && j in s.calls && s.calls[i].Uploaded? ==> s.calls[i].key !in Doomed(s.calls[j]))
  }

  ghost predicate StoreIsRemembered(s: State) {
    s.objects <= s.drawn
  }

  ghost predicate Inv(s: State) {
    NoDangling(s) && KeysAreUnshared(s) && StoreIsRemembered(s) && UploadsAreExclusive(s) && DoomedAreSafe(s)
  }

  lemma StepKeepsNoDangling(s: State, a: Action)
    requires Inv(s) && Enabled(s, a)
    ensures NoDangling(Step(s, a)) && StoreIsRemembered(Step(s, a))
  {
  }

  lemma StepKeepsUnshared(s: State, a: Action)
    requires Inv(s) && Enabled(s, a)
    ensures KeysAreUnshared(Step(s, a))
  {
  }

  lemma UploadCameFrom(s: State, a: Action, i: CallId)
    requires Enabled(s, a) && i in Step(s, a).calls && Step(s, a).calls[i].Uploaded?
    ensures
      var k := Step(s, a).calls[i].key;
      || (i in s.calls && s.calls[i].Uploaded? && s.calls[i].key == k && !(a.Advance? && a.id == i))
      || (a.Advance? && a.id == i && s.calls[i].Adding? && k !in s.drawn && k in Step(s, a).objects)
  {
  }

  lemma RowCameFrom(s: State, a: Action, r: RowId)
    requires Enabled(s, a) && r in Step(s, a).rows
    ensures
      || (r in s.rows && s.rows[r] == Step(s, a).rows[r])
      || (a.Advance? && s.calls[a.id].Uploaded? && (Step(s, a).calls[a.id].Adding? || Step(s, a).calls[a.id].Finished?)
          && Step(s, a).rows[r].s3Key == s.calls[a.id].key)
  {
  }

  lemma DoomedCameFrom(s: State, a: Action, j: CallId, k: Key)
    requires Enabled(s, a) && j in Step(s, a).calls && k in Doomed(Step(s, a).calls[j])
    ensures
      || (j in s.calls && k in Doomed(s.calls[j]))
      || (Step(s, a).rows == s.rows
          && exists r :: r in s.rows && s.rows[r].s3Key == k && Condemned(Step(s, a).calls[j], r, s.rows[r]))
  {
  }

  lemma {:induction false} StepKeepsUploads(s: State, a: Action)
    requires Inv(s) && Enabled(s, a)
    ensures UploadsAreExclusive(Step(s, a))
  {
    var s' := Step(s, a);
    forall i | i in s'.calls && s'.calls[i].Uploaded? ensures s'.calls[i].key in s'.objects {
      UploadCameFrom(s, a, i);
    }
    forall i, r | i in s'.calls && s'.calls[i].Uploaded? && r in s'.rows ensures s'.rows[r].s3Key != s'.calls[i].key {
      UploadCameFrom(s, a, i);
      RowCameFrom(s, a, r);
    }
    forall i, j | i in s'.calls && j in s'.calls && s'.calls[i].Uploaded? && s'.calls[j].Uploaded?
                  && s'.calls[i].key == s'.calls[j].key
      ensures i == j
    {
      UploadCameFrom(s, a, i);
      UploadCameFrom(s, a, j);
    }
    forall i, j | i in s'.calls && j in s'.calls && s'.calls[i].Uploaded?
      ensures s'.calls[i].key !in Doomed(s'.calls[j])
    {
      UploadCameFrom(s, a, i);
      if s'.calls[i].key in Doomed(s'.calls[j]) {
        DoomedCameFrom(s, a, j, s'.calls[i].key);
      }
    }
  }

  /** A call whose doomed keys stay doomed spares no row it did not delete. */
  lemma CondemnedRowsGo(s: State, a: Action, j: CallId, r: RowId)
    requires Enabled(s, a) && j in s.calls && r in s.rows && Condemned(s.calls[j], r, s.rows[r])
    requires r in Step(s, a).rows && Step(s, a).rows[r] == s.rows[r] && Doomed(Step(s, a).calls[j]) != {}
    ensures j in Step(s, a).calls && Condemned(Step(s, a).calls[j], r, s.rows[r])
  {
  }

  lemma {:induction false} StepKeepsDoomedSafe(s: State, a: Action)
    requires Inv(s) && Enabled(s, a)
    ensures DoomedAreSafe(Step(s, a))
  {
    var s' := Step(s, a);
    forall j, k | j in s'.calls && k in Doomed(s'.calls[j]) ensures k in s'.drawn {
      DoomedCameFrom(s, a, j, k);
    }
    forall j, r | j in s'.calls && r in s'.rows && s'.rows[r].s3Key in Doomed(s'.calls[j])
      ensures Condemned(s'.calls[j], r, s'.rows[r])
    {
      RowCameFrom(s, a, r);
      DoomedCameFrom(s, a, j, s'.rows[r].s3Key);
      if j in s.calls && r in s.rows && s.rows[r] == s'.rows[r] && s'.rows[r].s3Key in Doomed(s.calls[j]) {
        CondemnedRowsGo(s, a, j, r);
      }
    }
  }

  lemma {:induction false} Invariant(r: Run)
    requires Valid(r)
    ensures Inv(After(r))
  {
    if r.Then? {
      Invariant(r.past);
      StepKeepsNoDangling(After(r.past), r.action);
      StepKeepsUnshared(After(r.past), r.action);
      StepKeepsUploads(After(r.past), r.action);
      StepKeepsDoomedSafe(After(r.past), r.action);
    }
  }

  /** After every statement of every interleaving, and so after a crash anywhere, each receipt's object is in the store,
      and no other receipt shares it. */
  lemma {:induction false} NoReceiptDangles(r: Run, row: RowId)
    requires Valid(r) && row in After(r).rows
    ensures After(r).rows[row].s3Key in After(r).objects
    ensures forall q :: q in After(r).rows && After(r).rows[q].s3Key == After(r).rows[row].s3Key ==> q == row
  {
    Invariant(r);
  }

  // ----- objects without a row -----

  predicate HasRow(s: State, key: Key) {
    exists r :: r in s.rows && s.rows[r].s3Key == key
  }

  /** It has uploaded the object and not inserted its row yet, or has deleted its row and not the object yet. */
  predicate HoldsKey(call: Call, key: Key) {
    (call.Uploaded? && call.key == key) || (call.Deleting? && key in call.keys)
  }

  predicate InHand(s: State, key: Key) {
    exists i :: i in s.calls && HoldsKey(s.calls[i], key)
  }

  /** The objects that one request gives up on: an upload that is stored and not answered, one whose row is not
      inserted, the object of a row, or of a form, whose deletion is not answered, an object that could not be
      deleted, and receipts added to a form after its removal had listed what to delete. */
  function GivenUp(s: State, a: Action): set<Key> {
    if !a.Advance? || a.id !in s.calls then {}
    else match s.calls[a.id]
      case Adding(_, left) => if left > 0 && a.fate.Unanswered? then {a.key} else {}
      case Uploaded(f, _, k) => if f !in s.forms || a.fate.Lost? then {k} else {}
      case FoundOne(r, k) => if r in s.rows && a.fate.Unanswered? then {k} else {}
      case RemovingForm(f, keys) =>
        if f !in s.forms || a.fate.Lost? then {}
        else if a.fate.Unanswered? then KeysOf(s.rows, f) else KeysOf(s.rows, f) - keys
      case Deleting(keys) => if a.fate.Lost? && a.key in keys then {a.key} else {}
      case _ => {}
  }

  /** The objects left without a row: at the start, or given up on since. */
  ghost function LeftBehind(r: Run): set<Key> {
    match r
    case Start(_, _, objects) => set k | k in objects && !HasRow(After(r), k)
    case Then(past, a) => LeftBehind(past) + GivenUp(After(past), a)
  }

  lemma HandedOverBy(s: State, a: Action, key: Key, i: CallId)
    requires Enabled(s, a) && i in s.calls && HoldsKey(s.calls[i], key)
    requires key in Step(s, a).objects && key !in GivenUp(s, a)
    ensures
      var s' := Step(s, a);
      || (i in s'.calls && HoldsKey(s'.calls[i], key))
      || (a.Advance? && a.row in s'.rows && s'.rows[a.row].s3Key == key)
  {
  }

  lemma HandedOver(s: State, a: Action, key: Key)
    requires Enabled(s, a) && InHand(s, key) && key in Step(s, a).objects && key !in GivenUp(s, a)
    ensures InHand(Step(s, a), key) || HasRow(Step(s, a), key)
  {
    var i :| i in s.calls && HoldsKey(s.calls[i], key);
    HandedOverBy(s, a, key, i);
  }

  /** A call that found a row to remove knows the key that is stored in it. */
  ghost predicate FoundKeysAgree(s: State) {
    forall i :: i in s.calls && s.calls[i].FoundOne? && s.calls[i].row in s.rows ==>
      s.rows[s.calls[i].row].s3Key == s.calls[i].key
  }

  lemma StepKeepsFoundKeys(s: State, a: Action)
    requires Enabled(s, a) && FoundKeysAgree(s)
    ensures FoundKeysAgree(Step(s, a))
  {
    var s' := Step(s, a);
    forall i | i in s'.calls && s'.calls[i].FoundOne? && s'.calls[i].row in s'.rows
      ensures s'.rows[s'.calls[i].row].s3Key == s'.calls[i].key
    {
      RowCameFrom(s, a, s'.calls[i].row);
    }
  }

  lemma RowGone(s: State, a: Action, key: Key)
    requires Enabled(s, a) && FoundKeysAgree(s) && HasRow(s, key) && key !in GivenUp(s, a)
    ensures InHand(Step(s, a), key) || HasRow(Step(s, a), key)
  {
    var s' := Step(s, a);
    var r :| r in s.rows && s.rows[r].s3Key == key;
    if r in s'.rows && s'.rows[r] == s.rows[r] {
      assert HasRow(s', key);
    } else {
      assert s.calls[a.id].RemovingForm? ==> key in KeysOf(s.rows, s.calls[a.id].form);
      assert s'.calls[a.id].Deleting? && key in s'.calls[a.id].keys;
    }
  }

  lemma NewObject(s: State, a: Action, key: Key)
    requires Enabled(s, a) && key in Step(s, a).objects && key !in s.objects && key !in GivenUp(s, a)
    ensures InHand(Step(s, a), key)
  {
    assert Step(s, a).calls[a.id].Uploaded? && Step(s, a).calls[a.id].key == key;
  }

  /** Every object in the store has a row, is in the hand of some call, or was left behind by one of the events of
      `GivenUp`: nothing else leaves an object without a row. */
  lemma {:induction false} NothingElseIsLeftBehind(r: Run, key: Key)
    requires Valid(r) && key in After(r).objects
    ensures HasRow(After(r), key) || InHand(After(r), key) || key in LeftBehind(r)
  {
    if r.Then? {
      var s := After(r.past);
      FoundKeys(r.past);
      if key in GivenUp(s, r.action) {
      } else if key !in s.objects {
        NewObject(s, r.action, key);
      } else {
        NothingElseIsLeftBehind(r.past, key);
        if HasRow(s, key) {
          RowGone(s, r.action, key);
        } else if InHand(s, key) {
          HandedOver(s, r.action, key);
        }
      }
    }
  }

  lemma {:induction false} FoundKeys(r: Run)
    requires Valid(r)
    ensures FoundKeysAgree(After(r))
  {
    if r.Then? {
      FoundKeys(r.past);
      StepKeepsFoundKeys(After(r.past), r.action);
    }
  }
}
