/** The limit of five receipts a form, when requests interleave: the service counts before it inserts, so calls beside
    each other do not see each other's receipts. */
module ReceiptLimit {
  import opened Wrappers
  import opened Receipts
  import opened Delivery

  /** Receipts the call may still add to `form`. */
  function Left(call: Call, form: FormId): nat {
    match call
    case Adding(f, left) => if f == form then left else 0
    case Uploaded(f, left, _) => if f == form then left + 1 else 0
    case _ => 0
  }

  function LeftOf(s: State, id: CallId, form: FormId): nat {
    if id in s.calls then Left(s.calls[id], form) else 0
  }

  function Count(s: State, form: FormId): nat {
    |RowsOf(s.rows, form)|
  }

  function StartOf(r: Run): Run {
    match r case Start(_, _, _) => r case Then(past, _) => StartOf(past)
  }

  /** Call `id` asked to add receipts. */
  predicate Asked(r: Run, id: CallId) {
    r.Then? && (Asked(r.past, id) || (r.action.BeginAdd? && r.action.id == id))
  }

  function Requests(r: Run): nat {
    match r
    case Start(_, _, _) => 0
    case Then(past, a) => Requests(past) + if a.BeginAdd? then 1 else 0
  }

  /** What the calls that asked during `r` may still add in state `s`. */
  function Pending(r: Run, s: State, form: FormId): nat {
    match r
    case Start(_, _, _) => 0
    case Then(past, a) => Pending(past, s, form) + if a.BeginAdd? then LeftOf(s, a.id, form) else 0
  }

  /** How many of them still have receipts to add. */
  function Busy(r: Run, s: State, form: FormId): nat {
    match r
    case Start(_, _, _) => 0
    case Then(past, a) => Busy(past, s, form) + if a.BeginAdd? && LeftOf(s, a.id, form) > 0 then 1 else 0
  }

  /** The most that ever were adding to `form` beside each other, at least one. */
  function Peak(r: Run, form: FormId): nat {
    match r
    case Start(_, _, _) => 1
    case Then(past, _) =>
      var before, busy := Peak(past, form), Busy(r, After(r), form);
      if busy > before then busy else before
  }

  // ----- sums -----

  lemma {:induction false} AskedIsCall(r: Run, id: CallId)
    requires Valid(r) && Asked(r, id)
    ensures id in After(r).calls
  {
    CallsStay(After(r.past), r.action);
    if Asked(r.past, id) {
      AskedIsCall(r.past, id);
    }
  }

  lemma CallsStay(s: State, a: Action)
    requires Enabled(s, a)
    ensures s.calls.Keys <= Step(s, a).calls.Keys && a.id in Step(s, a).calls
  {
  }

  lemma {:induction false} SameElsewhere(r: Run, s: State, s': State, form: FormId)
    requires forall id: CallId :: Asked(r, id) ==> LeftOf(s', id, form) == LeftOf(s, id, form)
    ensures Pending(r, s', form) == Pending(r, s, form)
    ensures Busy(r, s', form) == Busy(r, s, form)
  {
    if r.Then? {
      SameElsewhere(r.past, s, s', form);
      assert r.action.BeginAdd? ==> Asked(r, r.action.id);
    }
  }

  lemma {:induction false} OneMoved(r: Run, s: State, s': State, form: FormId, id: CallId)
    requires Valid(r) && Asked(r, id)
    requires forall i: CallId :: i != id ==> LeftOf(s', i, form) == LeftOf(s, i, form)
    ensures Pending(r, s', form) + LeftOf(s, id, form) == Pending(r, s, form) + LeftOf(s', id, form)
  {
    if Asked(r.past, id) {
      AskedIsCall(r.past, id);
      OneMoved(r.past, s, s', form, id);
    } else {
      SameElsewhere(r.past, s, s', form);
    }
  }

  lemma {:induction false} PendingIsBounded(r: Run, s: State, form: FormId)
    requires forall id: CallId :: LeftOf(s, id, form) <= MAX_COMPROBANTES
    ensures Pending(r, s, form) <= MAX_COMPROBANTES * Busy(r, s, form)
  {
    if r.Then? {
      PendingIsBounded(r.past, s, form);
    }
  }

  // ----- one step -----

  lemma FewerRows(rows: map<RowId, Receipt>, rows': map<RowId, Receipt>, form: FormId)
    requires forall r :: r in rows' ==> r in rows && rows'[r] == rows[r]
    ensures |RowsOf(rows', form)| <= |RowsOf(rows, form)|
  {
    var less, more := RowsOf(rows', form), RowsOf(rows, form);
    assert more == less + (more - less);
  }

  lemma OneRowMore(rows: map<RowId, Receipt>, form: FormId, row: RowId, receipt: Receipt)
    requires row !in rows
    ensures |RowsOf(rows[row := receipt], form)| == |RowsOf(rows, form)| + if receipt.formId == form then 1 else 0
  {
    var after := RowsOf(rows[row := receipt], form);
    assert after == if receipt.formId == form then RowsOf(rows, form) + {row} else RowsOf(rows, form);
  }

  /** A receipt that is added was promised before. */
  lemma AdvanceStep(s: State, a: Action, form: FormId)
    requires Enabled(s, a) && a.Advance?
    ensures LeftOf(Step(s, a), a.id, form) <= LeftOf(s, a.id, form)
    ensures Count(Step(s, a), form) + LeftOf(Step(s, a), a.id, form) <= Count(s, form) + LeftOf(s, a.id, form)
    ensures forall id :: id != a.id ==> LeftOf(Step(s, a), id, form) == LeftOf(s, id, form)
  {
    var s', call := Step(s, a), s.calls[a.id];
    if call.Uploaded? && call.form in s.forms && !a.fate.Lost? {
      OneRowMore(s.rows, form, a.row, Receipt(call.form, call.key));
    } else {
      FewerRows(s.rows, s'.rows, form);
    }
  }

  lemma BeginStep(s: State, a: Action, form: FormId)
    requires Enabled(s, a) && !a.Advance?
    ensures LeftOf(s, a.id, form) == 0 && Count(Step(s, a), form) == Count(s, form)
    ensures LeftOf(Step(s, a), a.id, form) > 0 ==>
              a.BeginAdd? && Count(s, form) + LeftOf(Step(s, a), a.id, form) <= MAX_COMPROBANTES
    ensures forall id :: id != a.id ==> LeftOf(Step(s, a), id, form) == LeftOf(s, id, form)
  {
  }

  // ----- the bound -----

  /** Only calls that asked may add receipts, and at most five each. */
  ghost predicate Listed(r: Run, form: FormId) {
    && (forall id: CallId :: LeftOf(After(r), id, form) > 0 ==> Asked(r, id))
    && (forall id: CallId :: LeftOf(After(r), id, form) <= MAX_COMPROBANTES)
  }

  lemma AdvanceKeepsPromise(r: Run, a: Action, form: FormId)
    requires Valid(r) && Listed(r, form) && Enabled(After(r), a) && a.Advance?
    ensures Listed(Then(r, a), form)
    ensures Count(After(Then(r, a)), form) + Pending(Then(r, a), After(Then(r, a)), form)
         <= Count(After(r), form) + Pending(r, After(r), form)
  {
    var s, s' := After(r), Step(After(r), a);
    AdvanceStep(s, a, form);
    if Asked(r, a.id) {
      OneMoved(r, s, s', form, a.id);
    } else {
      SameElsewhere(r, s, s', form);
    }
  }

  /** A call that begins is let in by the receipts it sees; the others may still add five each. */
  lemma BeginKeepsPromise(r: Run, a: Action, form: FormId)
    requires Valid(r) && Listed(r, form) && Enabled(After(r), a) && !a.Advance?
    ensures Listed(Then(r, a), form)
    ensures
      var r' := Then(r, a);
      var promised := Count(After(r'), form) + Pending(r', After(r'), form);
      promised <= Count(After(r), form) + Pending(r, After(r), form)
      || promised <= MAX_COMPROBANTES * Busy(r', After(r'), form)
  {
    var s, s' := After(r), Step(After(r), a);
    BeginStep(s, a, form);
    forall id: CallId | Asked(r, id) ensures LeftOf(s', id, form) == LeftOf(s, id, form) {
      AskedIsCall(r, id);
    }
    SameElsewhere(r, s, s', form);
    PendingIsBounded(r, s, form);
  }

  /** The receipts of the form, and what calls may still add to it. */
  lemma {:induction false} PromiseIsBounded(r: Run, form: FormId)
    requires Valid(r) && Count(After(StartOf(r)), form) <= MAX_COMPROBANTES
    ensures Listed(r, form)
    ensures Count(After(r), form) + Pending(r, After(r), form) <= MAX_COMPROBANTES * Peak(r, form)
  {
    match r
    case Start(_, _, _) =>
    case Then(past, a) =>
      PromiseIsBounded(past, form);
      if a.Advance? {
        AdvanceKeepsPromise(past, a, form);
      } else {
        BeginKeepsPromise(past, a, form);
      }
  }

  /** However requests interleave, a form has at most five receipts for each call that was adding beside the others;
      so five when no two were. */
  lemma {:induction false} AtMostFivePerAdder(r: Run, form: FormId)
    requires Valid(r) && Count(After(StartOf(r)), form) <= MAX_COMPROBANTES
    ensures Count(After(r), form) <= MAX_COMPROBANTES * Peak(r, form)
  {
    PromiseIsBounded(r, form);
  }

  // ----- the bound is reached -----

  function Tally(n: nat): string {
    seq(n, _ => 'i')
  }

  /** `k` calls begin on an empty form, each with five files. */
  function AllBegun(form: FormId, user: UserId, k: nat): Run {
    if k == 0 then Start(map[form := Some(user)], map[], {})
    else Then(AllBegun(form, user, k - 1), BeginAdd(k - 1, user, false, form, MAX_COMPROBANTES))
  }

  /** The first `n` of their files, one after the other: uploaded, then inserted. */
  function Filled(form: FormId, user: UserId, k: nat, n: nat): Run {
    if n == 0 then AllBegun(form, user, k)
    else
      var step := Advance((n - 1) / MAX_COMPROBANTES, Key(Tally(n - 1)), RowId(Tally(n - 1)), Answered);
      Then(Then(Filled(form, user, k, n - 1), step), step)
  }

  function Todo(id: CallId, n: nat): nat {
    if n <= MAX_COMPROBANTES * id then MAX_COMPROBANTES
    else if n <= MAX_COMPROBANTES * (id + 1) then MAX_COMPROBANTES * (id + 1) - n
    else 0
  }

  ghost predicate Fits(s: State, form: FormId, user: UserId, k: nat, n: nat) {
    && s.forms == map[form := Some(user)]
    && (forall id: CallId :: id in s.calls <==> id < k)
    && (forall id: CallId :: id < k ==> s.calls[id] == Adding(form, Todo(id, n)))
    && (forall key :: key in s.drawn ==> |key.path| < n)
    && (forall row :: row in s.rows ==> |row.uuid| < n)
    && Count(s, form) == n
  }

  lemma {:induction false} BegunFits(form: FormId, user: UserId, k: nat)
    ensures Valid(AllBegun(form, user, k)) && Fits(After(AllBegun(form, user, k)), form, user, k, 0)
    ensures Requests(AllBegun(form, user, k)) == k
  {
    if k > 0 {
      BegunFits(form, user, k - 1);
      var s, s' := After(AllBegun(form, user, k - 1)), After(AllBegun(form, user, k));
      assert s'.calls == s.calls[k - 1 := Adding(form, MAX_COMPROBANTES)];
    }
  }

  lemma OneFileLess(id: CallId, n: nat)
    requires id == n / MAX_COMPROBANTES
    ensures Todo(id, n) == Todo(id, n + 1) + 1
    ensures forall other: CallId :: other != id ==> Todo(other, n + 1) == Todo(other, n)
  {
  }

  lemma UploadStep(s: State, form: FormId, user: UserId, k: nat, n: nat, a: Action)
    requires Fits(s, form, user, k, n) && n < MAX_COMPROBANTES * k
    requires a == Advance(n / MAX_COMPROBANTES, Key(Tally(n)), RowId(Tally(n)), Answered)
    ensures Enabled(s, a)
    ensures Step(s, a) == s.(calls := s.calls[a.id := Uploaded(form, Todo(a.id, n) - 1, a.key)],
                             objects := s.objects + {a.key}, drawn := s.drawn + {a.key})
  {
    OneFileLess(a.id, n);
  }

  lemma InsertStep(s: State, a: Action, form: FormId, left: nat, key: Key)
    requires a.Advance? && a.id in s.calls && s.calls[a.id] == Uploaded(form, left, key)
    requires form in s.forms && a.fate.Answered?
    ensures Step(s, a) == s.(calls := s.calls[a.id := Adding(form, left)], rows := s.rows[a.row := Receipt(form, key)])
  {
  }

  lemma OneFileFits(s: State, s': State, form: FormId, user: UserId, k: nat, n: nat, id: CallId, key: Key, row: RowId)
    requires Fits(s, form, user, k, n) && n < MAX_COMPROBANTES * k && id == n / MAX_COMPROBANTES
    requires |key.path| == n && |row.uuid| == n
    requires s' == s.(calls := s.calls[id := Adding(form, Todo(id, n + 1))], objects := s.objects + {key},
                      drawn := s.drawn + {key}, rows := s.rows[row := Receipt(form, key)])
    ensures Fits(s', form, user, k, n + 1)
  {
    OneFileLess(id, n);
    OneRowMore(s.rows, form, row, Receipt(form, key));
  }

  lemma InsertIsEnabled(s: State, form: FormId, user: UserId, k: nat, n: nat, a: Action, left: nat)
    requires Fits(s, form, user, k, n) && n < MAX_COMPROBANTES * k && a.Advance? && |a.row.uuid| == n
    ensures
      Enabled(s.(calls := s.calls[a.id := Uploaded(form, left, a.key)], objects := s.objects + {a.key},
                 drawn := s.drawn + {a.key}), a)
  {
  }

  lemma {:induction false} FileStep(s: State, form: FormId, user: UserId, k: nat, n: nat, a: Action)
    requires Fits(s, form, user, k, n) && n < MAX_COMPROBANTES * k
    requires a == Advance(n / MAX_COMPROBANTES, Key(Tally(n)), RowId(Tally(n)), Answered)
    ensures Enabled(s, a) && Enabled(Step(s, a), a) && Fits(Step(Step(s, a), a), form, user, k, n + 1)
  {
    UploadStep(s, form, user, k, n, a);
    OneFileLess(a.id, n);
    var s1 := s.(calls := s.calls[a.id := Uploaded(form, Todo(a.id, n + 1), a.key)], objects := s.objects + {a.key},
                 drawn := s.drawn + {a.key});
    InsertIsEnabled(s, form, user, k, n, a, Todo(a.id, n + 1));
    assert Step(s, a) == s1;
    InsertStep(s1, a, form, Todo(a.id, n + 1), a.key);
    var s2 := s.(calls := s.calls[a.id := Adding(form, Todo(a.id, n + 1))], objects := s.objects + {a.key},
                 drawn := s.drawn + {a.key}, rows := s.rows[a.row := Receipt(form, a.key)]);
    assert s1.calls[a.id := Adding(form, Todo(a.id, n + 1))] == s2.calls;
    assert Step(s1, a) == s2;
    OneFileFits(s, s2, form, user, k, n, a.id, a.key, a.row);
  }

  lemma {:induction false} FilledFits(form: FormId, user: UserId, k: nat, n: nat)
    requires n <= MAX_COMPROBANTES * k
    ensures Valid(Filled(form, user, k, n)) && Fits(After(Filled(form, user, k, n)), form, user, k, n)
    ensures Requests(Filled(form, user, k, n)) == k
  {
    if n == 0 {
      BegunFits(form, user, k);
    } else {
      FilledFits(form, user, k, n - 1);
      var r := Filled(form, user, k, n);
      FileStep(After(r.past.past), form, user, k, n - 1, r.action);
      assert Valid(r.past) && Valid(r);
    }
  }

  lemma {:induction false} BusyIsBounded(r: Run, s: State, form: FormId)
    ensures Busy(r, s, form) <= Requests(r)
  {
    if r.Then? {
      BusyIsBounded(r.past, s, form);
    }
  }

  lemma {:induction false} PeakIsBounded(r: Run, form: FormId, k: nat)
    requires k >= 1 && Requests(r) <= k
    ensures Peak(r, form) <= k
  {
    if r.Then? {
      PeakIsBounded(r.past, form, k);
      BusyIsBounded(r, After(r), form);
    }
  }

  /** For any number of calls beside each other some run reaches the bound: already two of them exceed the limit. */
  lemma {:induction false} BoundIsReached(form: FormId, user: UserId, k: nat)
    requires k >= 1
    ensures exists r :: Valid(r) && Peak(r, form) <= k && Count(After(r), form) == MAX_COMPROBANTES * k
  {
    var r := Filled(form, user, k, MAX_COMPROBANTES * k);
    FilledFits(form, user, k, MAX_COMPROBANTES * k);
    PeakIsBounded(r, form, k);
  }
}
