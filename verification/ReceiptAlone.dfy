/** A receipt call that nothing interrupts: its statements and store requests, one by one, do what the whole endpoint
    does. */
module ReceiptAlone {
  import opened Delivery
  import opened Wrappers
  import opened Receipts
  import opened ReceiptService

  /** The form is there, and is the user's or anybody's for one who sees all. */
  predicate MayTouch(s: State, form: FormId, user: UserId, seesAll: bool) {
    form in s.forms && (seesAll || s.forms[form] == Some(user))
  }

  predicate SameTables(s: State, t: State) {
    s.forms == t.forms && s.rows == t.rows && s.objects == t.objects
  }

  // ----- removing one receipt -----

  function RemoveOne(s: State, id: CallId, user: UserId, seesAll: bool, form: FormId, row: RowId, key: Key): State {
    var begun := Step(s, BeginRemoveOne(id, user, seesAll, form, row));
    var found := Step(begun, Advance(id, key, row, Answered));
    var deleted := Step(found, Advance(id, key, row, Answered));
    Step(deleted, Advance(id, key, row, Answered))
  }

  /** The receipt goes with its object exactly when the form may be touched and the receipt is one of its own. */
  lemma {:induction false} RemoveOneAlone(s: State, id: CallId, user: UserId, seesAll: bool, form: FormId, row: RowId,
      key: Key)
    requires id !in s.calls && (row in s.rows ==> s.rows[row].s3Key == key)
    ensures
      var s' := RemoveOne(s, id, user, seesAll, form, row, key);
      if MayTouch(s, form, user, seesAll) && row in s.rows && s.rows[row].formId == form
      then s'.forms == s.forms && s'.rows == s.rows - {row} && s'.objects == s.objects - {key}
      else SameTables(s', s)
  {
    var begun := Step(s, BeginRemoveOne(id, user, seesAll, form, row));
    var found := Step(begun, Advance(id, key, row, Answered));
    assert SameTables(found, s);
    assert found.calls[id] == if MayTouch(s, form, user, seesAll) && row in s.rows && s.rows[row].formId == form
                              then FoundOne(row, key) else Finished;
  }

  // ----- removing a form -----

  /** One request a key. */
  function Delete(s: State, id: CallId, keys: seq<Key>, n: nat, row: RowId): State
    requires n <= |keys|
  {
    if n == 0 then s else Step(Delete(s, id, keys, n - 1, row), Advance(id, keys[n - 1], row, Answered))
  }

  /** The first `n` of the keys. */
  function FirstKeys(keys: seq<Key>, n: nat): set<Key>
    requires n <= |keys|
  {
    set i | 0 <= i < n :: keys[i]
  }

  lemma {:induction false} DeleteAlone(s: State, id: CallId, keys: seq<Key>, n: nat, row: RowId)
    requires n <= |keys| && id in s.calls && s.calls[id].Deleting?
    ensures
      var s' := Delete(s, id, keys, n, row);
      && s'.forms == s.forms && s'.rows == s.rows
      && s'.calls == s.calls[id := Deleting(s.calls[id].keys - FirstKeys(keys, n))]
      && s'.objects == s.objects - (s.calls[id].keys * FirstKeys(keys, n))
  {
    if n == 0 {
      assert s.calls[id].keys - FirstKeys(keys, n) == s.calls[id].keys;
    } else {
      DeleteAlone(s, id, keys, n - 1, row);
      assert FirstKeys(keys, n) == FirstKeys(keys, n - 1) + {keys[n - 1]};
      var doomed := s.calls[id].keys;
      assert doomed - FirstKeys(keys, n - 1) - {keys[n - 1]} == doomed - FirstKeys(keys, n);
    }
  }

  function RemoveForm(s: State, id: CallId, user: UserId, seesAll: bool, form: FormId, keys: seq<Key>, row: RowId)
    : State
    requires keys != []
  {
    var begun := Step(s, BeginRemoveForm(id, user, seesAll, form));
    Delete(Step(begun, Advance(id, keys[0], row, Answered)), id, keys, |keys|, row)
  }

  /** The form goes, with its receipts and their objects, and nothing else does. */
  lemma {:induction false} RemoveFormAlone(s: State, id: CallId, user: UserId, seesAll: bool, form: FormId,
      keys: seq<Key>, row: RowId)
    requires id !in s.calls && keys != []
    requires forall r :: r in s.rows && s.rows[r].formId == form ==> s.rows[r].s3Key in keys
    ensures
      var s' := RemoveForm(s, id, user, seesAll, form, keys, row);
      if MayTouch(s, form, user, seesAll) then
        && (forall f :: f in s'.forms <==> f in s.forms && f != form)
        && (forall f :: f in s'.forms ==> s'.forms[f] == s.forms[f])
        && (forall r :: r in s'.rows <==> r in s.rows && s.rows[r].formId != form)
        && (forall r :: r in s'.rows ==> s'.rows[r] == s.rows[r])
        && (forall k :: k in s'.objects <==>
              k in s.objects && forall r :: r in s.rows && s.rows[r].formId == form ==> s.rows[r].s3Key != k)
      else SameTables(s', s)
  {
    var begun := Step(s, BeginRemoveForm(id, user, seesAll, form));
    var gone := Step(begun, Advance(id, keys[0], row, Answered));
    if MayTouch(s, form, user, seesAll) {
      DeleteAlone(gone, id, keys, |keys|, row);
    } else {
      DeleteFinished(gone, id, keys, |keys|, row);
    }
  }

  lemma {:induction false} DeleteFinished(s: State, id: CallId, keys: seq<Key>, n: nat, row: RowId)
    requires n <= |keys| && id in s.calls && s.calls[id].Finished?
    ensures Delete(s, id, keys, n, row) == s
  {
    if n > 0 {
      DeleteFinished(s, id, keys, n - 1, row);
    }
  }

  // ----- adding receipts -----

  /** Two requests a file: its object and its row. */
  function Add(s: State, id: CallId, ids: seq<RowId>, keys: seq<Key>, n: nat): State
    requires n <= |ids| && n <= |keys|
  {
    if n == 0 then s
    else
      var stored := Step(Add(s, id, ids, keys, n - 1), Advance(id, keys[n - 1], ids[n - 1], Answered));
      Step(stored, Advance(id, keys[n - 1], ids[n - 1], Answered))
  }

  lemma OneFileAlone(s: State, id: CallId, form: FormId, left: nat, row: RowId, key: Key)
    requires id in s.calls && s.calls[id] == Adding(form, left + 1) && form in s.forms
    ensures Step(Step(s, Advance(id, key, row, Answered)), Advance(id, key, row, Answered))
         == s.(objects := s.objects + {key}, drawn := s.drawn + {key},
               rows := s.rows[row := Receipt(form, key)], calls := s.calls[id := Adding(form, left)])
  {
  }

  lemma {:induction false} AddingAlone(s: State, id: CallId, form: FormId, ids: seq<RowId>, keys: seq<Key>, n: nat)
    requires |ids| == |keys| && n <= |ids|
    requires id in s.calls && s.calls[id] == Adding(form, |ids|) && form in s.forms
    ensures
      var s' := Add(s, id, ids, keys, n);
      && s'.forms == s.forms
      && s'.calls == s.calls[id := Adding(form, |ids| - n)]
      && s'.rows == WithRows(s.rows, form, ids, keys, n)
      && s'.objects == WithObjects(s.objects, keys, n)
  {
    if n > 0 {
      AddingAlone(s, id, form, ids, keys, n - 1);
      OneFileAlone(Add(s, id, ids, keys, n - 1), id, form, |ids| - n, ids[n - 1], keys[n - 1]);
    }
  }

  lemma {:induction false} AddFinished(s: State, id: CallId, ids: seq<RowId>, keys: seq<Key>, n: nat)
    requires |ids| == |keys| && n <= |ids| && id in s.calls && s.calls[id].Finished?
    ensures Add(s, id, ids, keys, n) == s
  {
    if n > 0 {
      AddFinished(s, id, ids, keys, n - 1);
    }
  }

  /** All files are added exactly when the form may be touched and has room for them; otherwise none is. */
  lemma {:induction false} AddAlone(s: State, id: CallId, user: UserId, seesAll: bool, form: FormId, ids: seq<RowId>,
      keys: seq<Key>)
    requires id !in s.calls && |ids| == |keys|
    ensures
      var s' := Add(Step(s, BeginAdd(id, user, seesAll, form, |ids|)), id, ids, keys, |ids|);
      if MayTouch(s, form, user, seesAll) && |set r | r in s.rows && s.rows[r].formId == form| + |ids| <= 5 then
        && s'.forms == s.forms
        && s'.rows == WithRows(s.rows, form, ids, keys, |ids|)
        && s'.objects == WithObjects(s.objects, keys, |ids|)
      else SameTables(s', s)
  {
    var begun := Step(s, BeginAdd(id, user, seesAll, form, |ids|));
    if begun.calls[id].Adding? {
      AddingAlone(begun, id, form, ids, keys, |ids|);
    } else {
      AddFinished(begun, id, ids, keys, |ids|);
    }
  }
}
