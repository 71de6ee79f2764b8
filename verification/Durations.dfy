/** Configured lifetimes such as "15m" or "7d". */
module Durations {
  import opened Wrappers
  import opened SessionRows
  import opened Session
  import opened SessionTheorems
  import opened SessionLimits

  predicate AllDigits(s: string) {
    forall i :: 0 <= i < |s| ==> '0' <= s[i] <= '9'
  }

  function Number(s: string): nat
    requires AllDigits(s)
  {
    if s == "" then 0 else 10 * Number(s[..|s| - 1]) + (s[|s| - 1] as int - '0' as int)
  }

  /** `/^(\d+)([mhd])$/` matches. */
  predicate WellFormed(s: string) {
    |s| >= 2 && AllDigits(s[..|s| - 1]) && s[|s| - 1] in {'m', 'h', 'd'}
  }

  function Minutes(s: string): nat
    requires WellFormed(s)
  {
    var value := Number(s[..|s| - 1]);
    match s[|s| - 1] case 'm' => value case 'h' => 60 * value case _ => 1440 * value
  }

  /** `Math.ceil(a / b)`. */
  function CeilDiv(a: nat, b: nat): nat
    requires b > 0
  {
    (a + b - 1) / b
  }

  function ParseDays(s: string): nat {
    if !WellFormed(s) then 7
    else
      var value := Number(s[..|s| - 1]);
      match s[|s| - 1] case 'm' => CeilDiv(value, 1440) case 'h' => CeilDiv(value, 24) case _ => value
  }

  function AccessTokenExpiry(s: string): nat {
    if !WellFormed(s) then 900
    else
      var value := Number(s[..|s| - 1]);
      match s[|s| - 1] case 'm' => value * 60 case 'h' => value * 3600 case _ => value * 86400
  }

  /** The refresh lifetime is rounded up to whole days, by less than one; the access lifetime is exact. */
  lemma {:induction false} LifetimesOfWellFormed(s: string)
    requires WellFormed(s)
    ensures Minutes(s) <= 1440 * ParseDays(s) < Minutes(s) + 1440
    ensures AccessTokenExpiry(s) == 60 * Minutes(s)
  {
    var value := Number(s[..|s| - 1]);
    if s[|s| - 1] == 'h' {
      assert 24 * CeilDiv(value, 24) == value + 23 - (value + 23) % 24;
    } else if s[|s| - 1] == 'm' {
      assert 1440 * CeilDiv(value, 1440) == value + 1439 - (value + 1439) % 1440;
    }
  }

  // ----- numerals -----

  const DIGITS := "0123456789"

  function Decimal(n: nat): string {
    if n < 10 then [DIGITS[n]] else Decimal(n / 10) + [DIGITS[n % 10]]
  }

  lemma DigitIs(d: nat)
    requires d < 10
    ensures '0' <= DIGITS[d] <= '9' && DIGITS[d] as int == '0' as int + d
  {
  }

  lemma DigitAppended(s: string, d: nat)
    requires AllDigits(s) && d < 10
    ensures AllDigits(s + [DIGITS[d]]) && Number(s + [DIGITS[d]]) == 10 * Number(s) + d
  {
    DigitIs(d);
    var text := s + [DIGITS[d]];
    assert text[..|text| - 1] == s;
    assert forall i :: 0 <= i < |s| ==> text[i] == s[i];
  }

  lemma {:induction false} NumberOfDecimal(n: nat)
    ensures Decimal(n) != "" && AllDigits(Decimal(n)) && Number(Decimal(n)) == n
  {
    if n < 10 {
      DigitAppended("", n);
      assert "" + [DIGITS[n]] == Decimal(n);
    } else {
      NumberOfDecimal(n / 10);
      DigitAppended(Decimal(n / 10), n % 10);
    }
  }

  /** A numeral and its unit mean what they say, to the day for refresh tokens and to the second for access tokens. */
  lemma {:induction false} LifetimesOfNumerals(n: nat)
    ensures ParseDays(Decimal(n) + "d") == n && AccessTokenExpiry(Decimal(n) + "d") == 86_400 * n
    ensures 24 * (ParseDays(Decimal(n) + "h") - 1) < n <= 24 * ParseDays(Decimal(n) + "h")
    ensures 1440 * (ParseDays(Decimal(n) + "m") - 1) < n <= 1440 * ParseDays(Decimal(n) + "m")
    ensures AccessTokenExpiry(Decimal(n) + "h") == 3600 * n && AccessTokenExpiry(Decimal(n) + "m") == 60 * n
  {
    NumberOfDecimal(n);
    forall unit | unit in "mhd" ensures (Decimal(n) + [unit])[..|Decimal(n)|] == Decimal(n) {
    }
    assert WellFormed(Decimal(n) + "h") && WellFormed(Decimal(n) + "m");
    LifetimesOfWellFormed(Decimal(n) + "h");
    LifetimesOfWellFormed(Decimal(n) + "m");
  }

  /** Anything but digits and a unit means a week, and a quarter of an hour. */
  lemma {:induction false} LifetimesOfMalformed(s: string)
    requires |s| < 2 || s[|s| - 1] !in "mhd" || exists i :: 0 <= i < |s| - 1 && s[i] !in DIGITS
    ensures ParseDays(s) == 7 && AccessTokenExpiry(s) == 900
  {
    if |s| >= 2 && AllDigits(s[..|s| - 1]) {
      forall i | 0 <= i < |s| - 1 ensures s[i] in DIGITS {
        assert '0' <= s[..|s| - 1][i] <= '9';
        assert s[i] == DIGITS[s[i] as int - '0' as int];
      }
    }
  }

  const DAY_MS := 86_400_000

  /** The limits of the session protocol under configured lifetimes. */
  function Configured(maxAttempts: nat, idleMs: nat, refresh: string, access: string): Config {
    Config(maxAttempts, idleMs, DAY_MS * ParseDays(refresh), AccessTokenExpiry(access))
  }

  /** The login that opened the current session of `u`; none after any other cut. */
  function OpenedAt(c: Config, init: Db, r: Run, u: UserId): Option<int> {
    match r
    case Start => None
    case Then(past, op) =>
      if !Cuts(op, ReplyOf(c, init, r), u) then OpenedAt(c, init, past, u)
      else if op.Login? then Some(op.now) else None
  }

  lemma {:induction false} ExpiryIsFromOpening(c: Config, init: Db, r: Run, u: UserId)
    ensures SessionExpiry(c, init, r, u)
         == match OpenedAt(c, init, r, u) case None => None case Some(t) => Some(t + c.refreshMs)
  {
    if r.Then? {
      ExpiryIsFromOpening(c, init, r.past, u);
    }
  }

  /** With well-formed lifetimes a session ends as configured: every refresh succeeds less than a day after the refresh
      lifetime has passed since the login, at the latest. */
  lemma {:induction false} RefreshEndsAsConfigured(maxAttempts: nat, idleMs: nat, refresh: string, access: string,
      init: Db, r: Run, op: Op)
    requires WellFormed(refresh)
    requires
      var c := Configured(maxAttempts, idleMs, refresh, access);
      Valid(c, init, r) && op.Refresh? && Apply(c, After(c, init, r), op).1.Rotated?
    ensures
      var login := OpenedAt(Configured(maxAttempts, idleMs, refresh, access), init, r, op.user);
      login.Some? && op.now < login.value + 60_000 * Minutes(refresh) + DAY_MS
  {
    var c := Configured(maxAttempts, idleMs, refresh, access);
    NoRefreshAfterExpiry(c, init, r, op);
    ExpiryIsFromOpening(c, init, r, op.user);
    LifetimesOfWellFormed(refresh);
  }

  /** And no access token of it is accepted later than its own lifetime after that. */
  lemma {:induction false} AccessEndsAsConfigured(maxAttempts: nat, idleMs: nat, refresh: string, access: string,
      init: Db, p: Run, r: Run, now: int)
    requires WellFormed(refresh) && WellFormed(access)
    requires
      var c := Configured(maxAttempts, idleMs, refresh, access);
      && Valid(c, init, r) && Prefix(p, r) && p.Then? && Issues(ReplyOf(c, init, p))
      && ApplyValidate(After(c, init, r), ReplyOf(c, init, p).access, now).1 == Accepted
    ensures
      var c := Configured(maxAttempts, idleMs, refresh, access);
      var login := OpenedAt(c, init, r, ReplyOf(c, init, p).access.sub);
      login.Some? && now < login.value + 60_000 * (Minutes(refresh) + Minutes(access)) + DAY_MS
  {
    var c := Configured(maxAttempts, idleMs, refresh, access);
    AccessEndsWithSession(c, init, p, r, now);
    ExpiryIsFromOpening(c, init, r, ReplyOf(c, init, p).access.sub);
    LifetimesOfWellFormed(refresh);
    LifetimesOfWellFormed(access);
  }
}
