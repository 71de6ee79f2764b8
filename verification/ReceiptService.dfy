/** The receipt endpoints of the UAFE service, run to their end without interference: what they leave behind. */
module ReceiptService {
  import opened Numbers
  import opened Wrappers
  import opened Receipts
  import opened ReceiptLimit

  datatype Reply = Ok | NotFound | Forbidden | TooMany | Failed

  /** The rows with the first `n` receipts of `form` added. */
  function WithRows(rows: map<RowId, Receipt>, form: FormId, ids: seq<RowId>, keys: seq<Key>, n: nat)
    : map<RowId, Receipt>
    requires n <= |ids| && n <= |keys|
  {
    if n == 0 then rows else WithRows(rows, form, ids, keys, n - 1)[ids[n - 1] := Receipt(form, keys[n - 1])]
  }

  function WithObjects(objects: set<Key>, keys: seq<Key>, n: nat): set<Key>
    requires n <= |keys|
  {
    if n == 0 then objects else WithObjects(objects, keys, n - 1) + {keys[n - 1]}
  }

  /** Row ids are fresh draws. */
  predicate FreshIds(rows: map<RowId, Receipt>, ids: seq<RowId>) {
    && (forall i :: 0 <= i < |ids| ==> ids[i] !in rows)
    && (forall i, j :: 0 <= i < j < |ids| ==> ids[i] != ids[j])
  }

  /** Adding keeps what was there and adds exactly the new rows. */
  lemma {:induction false} AddedRows(rows: map<RowId, Receipt>, form: FormId, ids: seq<RowId>, keys: seq<Key>, n: nat)
    requires |ids| == |keys| && n <= |ids| && FreshIds(rows, ids)
    ensures
      var after := WithRows(rows, form, ids, keys, n);
      && (forall r :: r in rows ==> r in after && after[r] == rows[r])
      && (forall i :: 0 <= i < n ==> ids[i] in after && after[ids[i]] == Receipt(form, keys[i]))
      && (forall i :: n <= i < |ids| ==> ids[i] !in after)
  {
    if n > 0 {
      AddedRows(rows, form, ids, keys, n - 1);
    }
  }

  /** The form has as many more receipts as were added. */
  lemma {:induction false} AddingCounts(rows: map<RowId, Receipt>, form: FormId, ids: seq<RowId>, keys: seq<Key>,
      n: nat)
    requires |ids| == |keys| && n <= |ids| && FreshIds(rows, ids)
    ensures |RowsOf(WithRows(rows, form, ids, keys, n), form)| == |RowsOf(rows, form)| + n
  {
    if n > 0 {
      AddingCounts(rows, form, ids, keys, n - 1);
      AddedRows(rows, form, ids, keys, n - 1);
      OneRowMore(WithRows(rows, form, ids, keys, n - 1), form, ids[n - 1], Receipt(form, keys[n - 1]));
    }
  }

  /** How far the file came that made a call fail, whatever was answered: not into the store, into the store only,
      or with its row. */
  datatype Reach = Nowhere | Stored | Inserted

  function StoredFiles(done: nat, all: nat, last: Reach): nat {
    if done < all && !last.Nowhere? then done + 1 else done
  }

  function InsertedFiles(done: nat, all: nat, last: Reach): nat {
    if done < all && last.Inserted? then done + 1 else done
  }

  class UafeFormsService {
    var forms: map<FormId, Option<UserId>>
    var rows: map<RowId, Receipt>
    var objects: set<Key>

    constructor (forms: map<FormId, Option<UserId>>)
      ensures this.forms == forms && rows == map[] && objects == {}
    {
      this.forms, rows, objects := forms, map[], {};
    }

    /** The first `good` files are added and answered; if there are more, the next one fails, and `last` says how far it
        came. */
    method AddComprobantes(id: FormId, user: UserId, seesAll: bool, ids: seq<RowId>, keys: seq<Key>, good: nat,
        last: Reach)
      returns (created: seq<RowId>, reply: Reply)
      requires |ids| == |keys| && FreshIds(rows, ids)
      modifies this`rows, this`objects
      ensures reply == if id !in forms then NotFound
                       else if !seesAll && forms[id] != Some(user) then Forbidden
                       else if |RowsOf(old(rows), id)| + |ids| > MAX_COMPROBANTES then TooMany
                       else if good < |ids| then Failed else Ok
      ensures reply in {Ok, Failed} ==>
                var n := Min(good, |ids|);
                var inserted := InsertedFiles(n, |ids|, last);
                && created == ids[..n]
                && rows == WithRows(old(rows), id, ids, keys, inserted)
                && objects == WithObjects(old(objects), keys, StoredFiles(n, |ids|, last))
                && |RowsOf(rows, id)| == |RowsOf(old(rows), id)| + inserted <= MAX_COMPROBANTES
      ensures reply !in {Ok, Failed} ==> rows == old(rows) && objects == old(objects)
    {
      created := [];
      if id !in forms {
        return created, NotFound;
      }
      if !seesAll && forms[id] != Some(user) {
        return created, Forbidden;
      }
      if |RowsOf(rows, id)| + |ids| > MAX_COMPROBANTES {
        return created, TooMany;
      }
      created := UploadAll(id, ids, keys, good, last);
      AddingCounts(old(rows), id, ids, keys, InsertedFiles(|created|, |ids|, last));
      return created, if |created| < |ids| then Failed else Ok;
    }

    /** The loop of AddComprobantes over the files. */
    method UploadAll(id: FormId, ids: seq<RowId>, keys: seq<Key>, good: nat, last: Reach) returns (created: seq<RowId>)
      requires |ids| == |keys|
      modifies this`rows, this`objects
      ensures created == ids[..Min(good, |ids|)]
      ensures rows == WithRows(old(rows), id, ids, keys, InsertedFiles(|created|, |ids|, last))
      ensures objects == WithObjects(old(objects), keys, StoredFiles(|created|, |ids|, last))
    {
      created := [];
      var i := 0;
      while i < |ids| && i < good
        invariant 0 <= i <= Min(good, |ids|)
        invariant created == ids[..i]
        invariant rows == WithRows(old(rows), id, ids, keys, i)
        invariant objects == WithObjects(old(objects), keys, i)
      {
        objects := objects + {keys[i]};
        rows := rows[ids[i] := Receipt(id, keys[i])];
        created := created + [ids[i]];
        i := i + 1;
      }
      if i < |ids| && !last.Nowhere? {
        objects := objects + {keys[i]};
        if last.Inserted? {
          rows := rows[ids[i] := Receipt(id, keys[i])];
        }
      }
    }

    method RemoveComprobante(id: FormId, row: RowId, user: UserId, seesAll: bool) returns (reply: Reply)
      modifies this`rows, this`objects
      ensures reply == if id !in forms then NotFound
                       else if !seesAll && forms[id] != Some(user) then Forbidden
                       else if row !in old(rows) || old(rows)[row].formId != id then NotFound else Ok
      ensures reply == Ok ==> rows == old(rows) - {row} && objects == old(objects) - {old(rows)[row].s3Key}
      ensures reply != Ok ==> rows == old(rows) && objects == old(objects)
    {
      if id !in forms {
        return NotFound;
      }
      if !seesAll && forms[id] != Some(user) {
        return Forbidden;
      }
      if row !in rows || rows[row].formId != id {
        return NotFound;
      }
      var key := rows[row].s3Key;
      rows := rows - {row};
      objects := objects - {key};
      return Ok;
    }

    method Remove(id: FormId, user: UserId, seesAll: bool) returns (reply: Reply)
      modifies this
      ensures reply == if id !in old(forms) then NotFound
                       else if !seesAll && old(forms)[id] != Some(user) then Forbidden else Ok
      ensures reply == Ok ==>
                && forms == old(forms) - {id} && rows == Cascade(old(rows), id)
                && objects == old(objects) - KeysOf(old(rows), id)
      ensures reply != Ok ==> forms == old(forms) && rows == old(rows) && objects == old(objects)
    {
      if id !in forms {
        return NotFound;
      }
      if !seesAll && forms[id] != Some(user) {
        return Forbidden;
      }
      var keys := KeysOf(rows, id);
      forms := forms - {id};
      rows := Cascade(rows, id);
      ghost var all := keys;
      while keys != {}
        modifies this`objects
        invariant keys <= all
        invariant objects == old(objects) - (all - keys)
      {
        var key :| key in keys;
        objects := objects - {key};
        keys := keys - {key};
      }
      return Ok;
    }
  }
}
