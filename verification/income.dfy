/** The `collect` command (cogs/income.py): a daily income for members
    holding a daily role and a weekly income summed over the member's
    qualifying roles, each gated on the time since the last claim of its
    kind. The member's role names, in role order, and the current time in
    seconds are inputs. */
module Income {
  import opened Basics
  import opened Store

  /** Role names that earn the daily income. */
  const DailyRoleNames: seq<string> := ["Verified 18+"]

  /** The daily income. */
  const DailyIncome: int := 500

  /** The weekly income each qualifying role name earns. */
  const WeeklyRoleIncome: map<string, int> := map[
    "Efflorescent" := 5000,
    "\U{208A}\U{02DA}\U{0ED2} Staff \U{0B6D}\U{208A}\U{02DA}" := 2500,
    "Vanity Link" := 2000,
    "Bronze Clover" := 2000]

  /** Whether any of the member's roles is a daily role. */
  predicate DailyEligible(roles: seq<string>) {
    exists i :: 0 <= i < |roles| && roles[i] in DailyRoleNames
  }

  /** The member's role names that appear in the weekly table, in order and
      with repetitions (two roles may carry the same name). */
  function QualifyingRoles(roles: seq<string>): (q: seq<string>)
    ensures |q| <= |roles|
    ensures forall k :: 0 <= k < |q| ==> q[k] in WeeklyRoleIncome
    ensures forall k :: 0 <= k < |roles| && roles[k] in WeeklyRoleIncome ==> roles[k] in q
    ensures q == [] <==> forall k :: 0 <= k < |roles| ==> roles[k] !in WeeklyRoleIncome
  {
    if |roles| == 0 then []
    else
      var rest := QualifyingRoles(roles[1..]);
      assert forall k :: 1 <= k < |roles| ==> roles[k] == roles[1..][k - 1];
      if roles[0] in WeeklyRoleIncome then [roles[0]] + rest else rest
  }

  /** The weekly income one role name earns, 0 when it is not in the table. */
  function RoleIncome(name: string): int {
    if name in WeeklyRoleIncome then WeeklyRoleIncome[name] else 0
  }

  /** The weekly amount: the table's income summed over the qualifying
      roles. */
  function WeeklyAmount(q: seq<string>): int {
    if |q| == 0 then 0 else RoleIncome(q[0]) + WeeklyAmount(q[1..])
  }

  /** The weekly amount is additive over the role list, each role
      contributing its table income once per occurrence; filtering out the
      roles not in the table does not change it. */
  lemma {:induction false} WeeklyAmountAdditive(a: seq<string>, b: seq<string>)
    ensures WeeklyAmount(a + b) == WeeklyAmount(a) + WeeklyAmount(b)
    ensures WeeklyAmount(QualifyingRoles(a)) == WeeklyAmount(a)
    decreases |a|
  {
    if |a| > 0 {
      WeeklyAmountAdditive(a[1..], b);
      assert (a + b)[1..] == a[1..] + b;
      if a[0] in WeeklyRoleIncome {
        assert ([a[0]] + QualifyingRoles(a[1..]))[1..] == QualifyingRoles(a[1..]);
      }
    } else {
      assert a + b == b;
    }
  }

  /** Sample amounts: Efflorescent and Vanity Link give 7000; an unlisted
      role adds nothing; two roles named Bronze Clover count twice. */
  lemma WeeklyAmountExamples()
    ensures WeeklyAmount(QualifyingRoles(["Efflorescent", "Member", "Vanity Link"])) == 7000
    ensures WeeklyAmount(QualifyingRoles(["Bronze Clover", "Bronze Clover"])) == 4000
  {
    WeeklyAmountAdditive(["Efflorescent", "Member", "Vanity Link"], []);
    WeeklyAmountAdditive(["Bronze Clover", "Bronze Clover"], []);
    assert ["Efflorescent", "Member", "Vanity Link"][1..] == ["Member", "Vanity Link"];
    assert ["Member", "Vanity Link"][1..] == ["Vanity Link"];
    assert ["Bronze Clover", "Bronze Clover"][1..] == ["Bronze Clover"];
  }

  // ---------------------------------------------------------------------
  // Claims
  // ---------------------------------------------------------------------

  /** What one half of `collect` did: nothing for lack of a role, a grant,
      or a refusal with the seconds left until the next claim. */
  datatype Claim = NotEligible | Granted(amount: int) | TooSoon(remaining: int)

  /** The amount a claim credited. */
  function Amount(c: Claim): int {
    if c.Granted? then c.amount else 0
  }

  /** One claim of `kind`: with no earlier claim, or at least `period` whole
      days after the last one, credit `amount` and stamp `now`; otherwise
      report the time left. The stamp is written even when the member has
      no Money row for the credit to land in. */
  function ClaimIncome(db: Db, m: MemberId, kind: ClaimKind, eligible: bool, amount: int, period: int, now: int): (r: (Claim, Db))
    requires period > 0
    ensures !eligible ==> r == (NotEligible, db)
    ensures eligible && GetLastClaimTime(db, m, kind).None? ==> r.0 == Granted(amount)
    ensures eligible && GetLastClaimTime(db, m, kind).Some? ==>
              var last := GetLastClaimTime(db, m, kind).value;
              && (r.0.Granted? <==> now - last >= period * SecondsPerDay)
              && (!r.0.Granted? ==> r == (TooSoon(last + period * SecondsPerDay - now), db) && r.0.remaining > 0)
    ensures r.0.Granted? ==>
              && r.0.amount == amount
              && GetLastClaimTime(r.1, m, kind) == Some(now)
              && GetCash(r.1, m) == GetCash(db, m) + (if m in db.money then amount else 0)
              && r.1 == UpdateLastClaimTime(AddCash(db, m, amount), m, kind, now)
  {
    if !eligible then (NotEligible, db)
    else
      var credited := UpdateLastClaimTime(AddCash(db, m, amount), m, kind, now);
      match GetLastClaimTime(db, m, kind)
      case None => (Granted(amount), credited)
      case Some(last) =>
        WholeDaysAtLeast(now - last, period);
        if WholeDays(now - last) >= period then (Granted(amount), credited)
        else (TooSoon(last + period * SecondsPerDay - now), db)
  }

  datatype Collection = Collection(daily: Claim, weekly: Claim, total: int, db: Db)

  /** `collect`: the daily claim, then the weekly claim on the resulting
      state; `total` is what the two credited together. */
  function Collect(db: Db, m: MemberId, roles: seq<string>, now: int): (r: Collection)
    ensures r.daily == NotEligible <==> !DailyEligible(roles)
    ensures r.weekly == NotEligible <==> QualifyingRoles(roles) == []
    ensures r.daily.Granted? ==> r.daily.amount == DailyIncome
    ensures r.weekly.Granted? ==> r.weekly.amount == WeeklyAmount(roles)
    ensures r.total == Amount(r.daily) + Amount(r.weekly)
    ensures GetCash(r.db, m) == GetCash(db, m) + (if m in db.money then r.total else 0)
    ensures forall k :: k != m ==> GetCash(r.db, k) == GetCash(db, k)
    ensures r.db.money.Keys == db.money.Keys
    ensures forall k, kind :: k != m ==> GetLastClaimTime(r.db, k, kind) == GetLastClaimTime(db, k, kind)
    ensures forall k :: k != m && k in db.income ==> k in r.db.income && r.db.income[k] == db.income[k]
    ensures r.db.income.Keys <= db.income.Keys + {m}
    ensures !DailyEligible(roles) ==> GetLastClaimTime(r.db, m, Daily) == GetLastClaimTime(db, m, Daily)
    ensures QualifyingRoles(roles) == [] ==> GetLastClaimTime(r.db, m, Weekly) == GetLastClaimTime(db, m, Weekly)
    ensures r.db == db.(money := r.db.money, income := r.db.income)
  {
    var (daily, db1) := ClaimIncome(db, m, Daily, DailyEligible(roles), DailyIncome, 1, now);
    var q := QualifyingRoles(roles);
    WeeklyAmountAdditive(roles, []);
    var (weekly, db2) := ClaimIncome(db1, m, Weekly, q != [], WeeklyAmount(q), 7, now);
    Collection(daily, weekly, Amount(daily) + Amount(weekly), db2)
  }

  /** A member with neither a daily nor a weekly role gets nothing and the
      database is untouched. */
  lemma CollectWithoutRoles(db: Db, m: MemberId, roles: seq<string>, now: int)
    requires !DailyEligible(roles)
    requires forall k :: 0 <= k < |roles| ==> roles[k] !in WeeklyRoleIncome
    ensures Collect(db, m, roles, now) == Collection(NotEligible, NotEligible, 0, db)
  {
  }

  /** The daily gate: a first claim is granted 500 and stamped now; a later
      one is granted exactly when a whole day has passed, and is otherwise
      refused with the remaining time and no change to the daily stamp. */
  lemma DailyGate(db: Db, m: MemberId, roles: seq<string>, now: int)
    requires DailyEligible(roles)
    ensures var r := Collect(db, m, roles, now);
            && (GetLastClaimTime(db, m, Daily).None? ==>
                  r.daily == Granted(DailyIncome) && GetLastClaimTime(r.db, m, Daily) == Some(now))
            && (GetLastClaimTime(db, m, Daily).Some? ==>
                  var last := GetLastClaimTime(db, m, Daily).value;
                  && (r.daily.Granted? <==> now - last >= SecondsPerDay)
                  && (r.daily.Granted? ==> GetLastClaimTime(r.db, m, Daily) == Some(now))
                  && (!r.daily.Granted? ==>
                        r.daily == TooSoon(last + SecondsPerDay - now)
                        && GetLastClaimTime(r.db, m, Daily) == Some(last)))
  {
  }

  /** The weekly gate: a grant needs no earlier weekly claim or seven whole
      days since it; a refusal leaves the weekly stamp as it was. */
  lemma WeeklyGate(db: Db, m: MemberId, roles: seq<string>, now: int)
    requires QualifyingRoles(roles) != []
    ensures var r := Collect(db, m, roles, now);
            && (r.weekly.Granted? <==>
                  GetLastClaimTime(db, m, Weekly).None?
                  || now - GetLastClaimTime(db, m, Weekly).value >= 7 * SecondsPerDay)
            && (r.weekly.Granted? ==> GetLastClaimTime(r.db, m, Weekly) == Some(now))
            && (!r.weekly.Granted? ==> GetLastClaimTime(r.db, m, Weekly) == GetLastClaimTime(db, m, Weekly))
  {
  }

  /** Collecting twice at the same instant credits each kind at most once:
      the second call grants nothing and changes nothing. */
  lemma CollectTwice(db: Db, m: MemberId, roles: seq<string>, now: int)
    ensures var first := Collect(db, m, roles, now);
            var second := Collect(first.db, m, roles, now);
            && !second.daily.Granted? && !second.weekly.Granted?
            && second.total == 0
            && second.db == first.db
  {
    var first := Collect(db, m, roles, now);
    if DailyEligible(roles) {
      assert GetLastClaimTime(first.db, m, Daily).Some?;
    }
    if QualifyingRoles(roles) != [] {
      assert GetLastClaimTime(first.db, m, Weekly).Some?;
    }
  }
}
