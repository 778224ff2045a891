/**
 * The `salesTargets` table and the server actions that read and write it:
 * lookups, create, update, delete, toggling `isActive`, overwriting the
 * achieved amount, and the chart rows.
 */
module SalesTargets {
  import opened Outcomes
  import opened Text
  import opened Calendar
  import opened Periods
  import opened Achievement

  type TargetId = nat

  /** One row of the table. */
  datatype SalesTarget = SalesTarget(
    id: TargetId,
    userId: UserId,
    targetType: TargetType,
    targetPeriod: string,
    targetAmount: int,
    achievedAmount: int,
    isActive: bool)

  /** `SalesTargetFormData`: the fields a create or an update writes. */
  datatype TargetForm = TargetForm(
    userId: UserId,
    targetType: TargetType,
    targetPeriod: string,
    targetAmount: int,
    isActive: bool)

  const UserNotFound: string := "User tidak ditemukan. Silakan login ulang atau hubungi administrator."
  const DuplicateTarget: string := "Target untuk periode ini sudah ada. Silakan edit target yang sudah ada."
  const CreateFailedPrefix: string := "Failed to create sales target: "
  /** Stands for the text of the database's rejection of a type outside the enumeration. */
  const InvalidTargetType: string := "invalid targetType"
  const UpdateConflict: string := "Target untuk periode ini sudah ada untuk user tersebut."
  const UpdateFailed: string := "Failed to update sales target"
  const DeleteFailed: string := "Failed to delete sales target"
  const TargetNotFound: string := "Sales target not found"
  const NoActiveTarget: string := "No active target found for this period"
  const ChartFailed: string := "Failed to fetch chart data"

  /** No two records share an id. */
  ghost predicate UniqueIds(rs: seq<SalesTarget>)
  {
    forall i, j | 0 <= i < j < |rs| :: rs[i].id != rs[j].id
  }

  /** At most one record per (userId, targetPeriod). */
  ghost predicate UniquePeriods(rs: seq<SalesTarget>)
  {
    forall i, j | 0 <= i < j < |rs| :: rs[i].userId != rs[j].userId || rs[i].targetPeriod != rs[j].targetPeriod
  }

  /** What the database keeps true of the table: the enumeration, the user foreign key, fresh ids and uniqueness. */
  ghost predicate TableInvariant(rs: seq<SalesTarget>, users: set<UserId>, nextId: TargetId)
  {
    && (forall i | 0 <= i < |rs| :: rs[i].id < nextId && rs[i].userId in users && !rs[i].targetType.Unrecognised?)
    && UniqueIds(rs)
    && UniquePeriods(rs)
  }

  /** Some record has this (userId, targetPeriod) pair: the `findFirst` of create. */
  predicate HasPeriod(rs: seq<SalesTarget>, userId: UserId, period: string)
  {
    exists i | 0 <= i < |rs| :: rs[i].userId == userId && rs[i].targetPeriod == period
  }

  /** A record other than `id` has this pair: the `findFirst` of update, with `id: { not: id }`. */
  predicate HasPeriodElsewhere(rs: seq<SalesTarget>, userId: UserId, period: string, id: TargetId)
  {
    exists i | 0 <= i < |rs| :: rs[i].userId == userId && rs[i].targetPeriod == period && rs[i].id != id
  }

  /** The position of the record with this id (`findUnique({ where: { id } })`). */
  function IndexOfId(rs: seq<SalesTarget>, id: TargetId): (r: Option<nat>)
    ensures r.Some? ==> r.value < |rs| && rs[r.value].id == id
    ensures r.Some? ==> forall j | 0 <= j < r.value :: rs[j].id != id
    ensures r.None? ==> forall j | 0 <= j < |rs| :: rs[j].id != id
  {
    if rs == [] then None
    else if rs[0].id == id then Some(0)
    else match IndexOfId(rs[1..], id)
      case None => None
      case Some(k) => Some(k + 1)
  }

  /** `findFirst` of an active record with this user and period: the first such record. */
  function FirstActive(rs: seq<SalesTarget>, userId: UserId, period: string): (r: Option<nat>)
    ensures r.Some? ==> r.value < |rs| && rs[r.value].userId == userId
                        && rs[r.value].targetPeriod == period && rs[r.value].isActive
    ensures r.Some? ==> forall j | 0 <= j < r.value ::
                          !(rs[j].userId == userId && rs[j].targetPeriod == period && rs[j].isActive)
    ensures r.None? ==> forall j | 0 <= j < |rs| ::
                          !(rs[j].userId == userId && rs[j].targetPeriod == period && rs[j].isActive)
  {
    if rs == [] then None
    else if rs[0].userId == userId && rs[0].targetPeriod == period && rs[0].isActive then Some(0)
    else match FirstActive(rs[1..], userId, period)
      case None => None
      case Some(k) => Some(k + 1)
  }

  /** With at most one record per pair, the first active match is the only record with that pair. */
  lemma FirstActiveIsTheRecord(rs: seq<SalesTarget>, userId: UserId, period: string, k: nat)
    requires UniquePeriods(rs)
    requires FirstActive(rs, userId, period) == Some(k)
    ensures forall j | 0 <= j < |rs| && rs[j].userId == userId && rs[j].targetPeriod == period :: j == k
  {
    forall j | 0 <= j < |rs| && rs[j].userId == userId && rs[j].targetPeriod == period
      ensures j == k
    {
      assert !(j < k) && !(k < j);
    }
  }

  /** `rs` with the record at `k` taken out. */
  function RemoveAt(rs: seq<SalesTarget>, k: nat): (r: seq<SalesTarget>)
    requires k < |rs|
    ensures |r| == |rs| - 1
    ensures forall i | 0 <= i < |r| :: r[i] == if i < k then rs[i] else rs[i + 1]
  {
    rs[..k] + rs[k + 1..]
  }

  lemma RemoveAtKeepsInvariant(rs: seq<SalesTarget>, users: set<UserId>, nextId: TargetId, k: nat)
    requires k < |rs| && TableInvariant(rs, users, nextId)
    ensures TableInvariant(RemoveAt(rs, k), users, nextId)
  {
    var r := RemoveAt(rs, k);
    forall i, j | 0 <= i < j < |r|
      ensures r[i].id != r[j].id
      ensures r[i].userId != r[j].userId || r[i].targetPeriod != r[j].targetPeriod
    {
      var i', j' := if i < k then i else i + 1, if j < k then j else j + 1;
      assert r[i] == rs[i'] && r[j] == rs[j'] && i' < j';
    }
  }

  /** Removing the record at `k` keeps every record but that one. */
  lemma RemoveAtMembers(rs: seq<SalesTarget>, k: nat)
    requires k < |rs| && UniqueIds(rs)
    ensures forall t :: t in RemoveAt(rs, k) <==> t in rs && t.id != rs[k].id
  {
    var r := RemoveAt(rs, k);
    forall t ensures t in r <==> t in rs && t.id != rs[k].id {
      if t in rs && t.id != rs[k].id {
        var i :| 0 <= i < |rs| && rs[i] == t;
        assert r[if i < k then i else i - 1] == t;
      }
      if t in r {
        var i :| 0 <= i < |r| && r[i] == t;
        var i' := if i < k then i else i + 1;
        assert rs[i'] == t;
      }
    }
  }

  /** Writing a record at `k` that keeps its id and takes a pair no other record has keeps the invariant. */
  lemma ReplaceKeepsInvariant(rs: seq<SalesTarget>, users: set<UserId>, nextId: TargetId, k: nat, t: SalesTarget)
    requires k < |rs| && TableInvariant(rs, users, nextId)
    requires t.id == rs[k].id && t.userId in users && !t.targetType.Unrecognised?
    requires !HasPeriodElsewhere(rs, t.userId, t.targetPeriod, t.id)
    ensures TableInvariant(rs[k := t], users, nextId)
  {
    var r := rs[k := t];
    forall i, j | 0 <= i < j < |r|
      ensures r[i].id != r[j].id
      ensures r[i].userId != r[j].userId || r[i].targetPeriod != r[j].targetPeriod
    {
      if i == k {
        assert rs[j].id != t.id;
      } else if j == k {
        assert rs[i].id != t.id;
      }
    }
  }

  /** Records ordered by `targetPeriod`, ascending. */
  ghost predicate SortedByPeriod(rs: seq<SalesTarget>)
  {
    forall i, j | 0 <= i < j < |rs| :: LexLe(rs[i].targetPeriod, rs[j].targetPeriod)
  }

  /** A record whose period comes no later than every period of a sorted list can go in front of it. */
  lemma PrependSorted(x: SalesTarget, rs: seq<SalesTarget>)
    requires SortedByPeriod(rs)
    requires forall j | 0 <= j < |rs| :: LexLe(x.targetPeriod, rs[j].targetPeriod)
    ensures SortedByPeriod([x] + rs)
  {
    var r := [x] + rs;
    forall i, j | 0 <= i < j < |r| ensures LexLe(r[i].targetPeriod, r[j].targetPeriod) {
      if i > 0 {
        assert r[i] == rs[i - 1] && r[j] == rs[j - 1];
      }
    }
  }

  /** The head of a sorted list comes no later than every later period. */
  lemma HeadFirst(rs: seq<SalesTarget>, x: SalesTarget)
    requires SortedByPeriod(rs) && rs != []
    requires LexLe(x.targetPeriod, rs[0].targetPeriod)
    ensures forall j | 0 <= j < |rs| :: LexLe(x.targetPeriod, rs[j].targetPeriod)
  {
    forall j | 0 <= j < |rs| ensures LexLe(x.targetPeriod, rs[j].targetPeriod) {
      if j > 0 { LexLeTransitive(x.targetPeriod, rs[0].targetPeriod, rs[j].targetPeriod); }
    }
  }

  function InsertByPeriod(t: SalesTarget, rs: seq<SalesTarget>): (r: seq<SalesTarget>)
    requires SortedByPeriod(rs)
    ensures SortedByPeriod(r)
    ensures multiset(r) == multiset(rs) + multiset{t}
  {
    if rs == [] then [t]
    else if LexLe(t.targetPeriod, rs[0].targetPeriod) then
      HeadFirst(rs, t);
      PrependSorted(t, rs);
      [t] + rs
    else
      var head, rest := rs[0], rs[1..];
      assert rs == [head] + rest;
      assert SortedByPeriod(rest);
      LexLeTotal(t.targetPeriod, head.targetPeriod);
      var tail := InsertByPeriod(t, rest);
      forall j | 0 <= j < |tail| ensures LexLe(head.targetPeriod, tail[j].targetPeriod) {
        assert tail[j] in multiset(tail);
        if tail[j] != t {
          var k :| 0 <= k < |rest| && rest[k] == tail[j];
          assert rs[k + 1] == tail[j];
        }
      }
      PrependSorted(head, tail);
      [head] + tail
  }

  /** The `orderBy: { targetPeriod: "asc" }` of the chart query (an insertion sort, stable). */
  function SortByPeriod(rs: seq<SalesTarget>): (r: seq<SalesTarget>)
    ensures SortedByPeriod(r)
    ensures multiset(r) == multiset(rs)
  {
    if rs == [] then []
    else
      assert rs == [rs[0]] + rs[1..];
      InsertByPeriod(rs[0], SortByPeriod(rs[1..]))
  }

  /** The chart query's `where`: the user when one is given (an empty id counts as none), the type, active only. */
  predicate ChartSelects(t: SalesTarget, userFilter: Option<UserId>, targetType: TargetType)
  {
    (userFilter.None? || userFilter.value == "" || t.userId == userFilter.value)
    && t.targetType == targetType && t.isActive
  }

  function SelectForChart(rs: seq<SalesTarget>, userFilter: Option<UserId>, targetType: TargetType): (r: seq<SalesTarget>)
    ensures forall i | 0 <= i < |r| :: ChartSelects(r[i], userFilter, targetType)
    ensures forall t | t in rs && ChartSelects(t, userFilter, targetType) :: multiset(r)[t] == multiset(rs)[t]
    ensures forall t | t in r :: t in rs
  {
    if rs == [] then []
    else
      var rest := SelectForChart(rs[1..], userFilter, targetType);
      assert rs == [rs[0]] + rs[1..];
      if ChartSelects(rs[0], userFilter, targetType) then [rs[0]] + rest else rest
  }

  /** The targets the chart shows, in the order it shows them. */
  function ChartTargets(rs: seq<SalesTarget>, userFilter: Option<UserId>, targetType: TargetType): (r: seq<SalesTarget>)
    ensures SortedByPeriod(r)
    ensures forall i | 0 <= i < |r| :: r[i] in rs && ChartSelects(r[i], userFilter, targetType)
    ensures forall t | t in rs && ChartSelects(t, userFilter, targetType) :: multiset(r)[t] == multiset(rs)[t]
  {
    var selected := SelectForChart(rs, userFilter, targetType);
    var sorted := SortByPeriod(selected);
    assert forall i | 0 <= i < |sorted| :: sorted[i] in multiset(selected);
    sorted
  }

  /** One entry of the chart: `{ id, period, target, achieved, percentage }`. */
  datatype ChartRow = ChartRow(id: TargetId, period: string, target: int, achieved: int, percentage: real)

  function ChartRowOf(t: SalesTarget, invoices: seq<Invoice>): ChartRow
  {
    var achieved := AchievedAmount(invoices, t.userId, t.targetPeriod, t.targetType);
    ChartRow(t.id, t.targetPeriod, t.targetAmount, achieved, Percentage(achieved, t.targetAmount))
  }

  /**
   * The `targets.map(...)` of the chart: one row per target, in the same order.
   * `rowOf` is the callback, `ChartRowOf` with the invoice table in the chart query.
   */
  method ChartRows(ts: seq<SalesTarget>, rowOf: SalesTarget -> ChartRow) returns (rows: seq<ChartRow>)
    ensures |rows| == |ts|
    ensures forall i | 0 <= i < |ts| :: rows[i] == rowOf(ts[i])
  {
    rows := [];
    var i := 0;
    while i < |ts|
      invariant 0 <= i <= |ts|
      invariant |rows| == i
      invariant forall j | 0 <= j < i :: rows[j] == rowOf(ts[j])
    {
      rows := rows + [rowOf(ts[i])];
      i := i + 1;
    }
  }

  /** The rows of a chart are in ascending period order and show 0% for a target of 0 or less. */
  lemma ChartRowsOrdered(rows: seq<ChartRow>, ts: seq<SalesTarget>, invoices: seq<Invoice>)
    requires SortedByPeriod(ts) && |rows| == |ts|
    requires forall i | 0 <= i < |ts| :: rows[i] == ChartRowOf(ts[i], invoices)
    ensures forall i, j | 0 <= i < j < |rows| :: LexLe(rows[i].period, rows[j].period)
    ensures forall i | 0 <= i < |rows| :: rows[i].target <= 0 ==> rows[i].percentage == 0.0
  {
    forall i, j | 0 <= i < j < |rows| ensures LexLe(rows[i].period, rows[j].period) {
      assert rows[i].period == ts[i].targetPeriod && rows[j].period == ts[j].targetPeriod;
    }
    forall i | 0 <= i < |rows| ensures rows[i].target <= 0 ==> rows[i].percentage == 0.0 {
      PercentageMeaning(rows[i].achieved, rows[i].target);
    }
  }

  /** The `salesTargets` table, the ids of the existing users, and the next id to hand out. */
  class SalesTargetTable {
    var records: seq<SalesTarget>
    var users: set<UserId>
    var nextId: TargetId

    ghost predicate Valid()
      reads this
    {
      TableInvariant(records, users, nextId)
    }

    constructor (existingUsers: set<UserId>)
      ensures Valid()
      ensures records == [] && users == existingUsers
    {
      records := [];
      users := existingUsers;
      nextId := 0;
    }

    /** `getUserSalesTarget(userId, targetPeriod)`: the active record for the pair, if any. */
    function UserSalesTarget(userId: UserId, period: string): (r: Option<SalesTarget>)
      reads this
      ensures r.Some? ==> r.value in records && r.value.userId == userId
                          && r.value.targetPeriod == period && r.value.isActive
      ensures r.None? ==> forall t | t in records :: !(t.userId == userId && t.targetPeriod == period && t.isActive)
    {
      match FirstActive(records, userId, period)
      case None => None
      case Some(k) => Some(records[k])
    }

    /** `getCurrentMonthTarget(userId)` on the day `today`. */
    function CurrentMonthTarget(userId: UserId, today: Date): (r: Option<SalesTarget>)
      reads this
      requires ValidDate(today)
      ensures r.Some? ==> r.value in records && r.value.userId == userId && r.value.isActive
                          && r.value.targetPeriod == FormatPeriod(Monthly, today)
      ensures r.None? ==> forall t | t in records ::
                            !(t.userId == userId && t.targetPeriod == FormatPeriod(Monthly, today) && t.isActive)
    {
      UserSalesTarget(userId, MonthlyPeriod(today.year, today.month))
    }

    /** `createSalesTarget(data)`. */
    method Create(form: TargetForm) returns (r: Result<SalesTarget>)
      requires Valid()
      modifies this
      ensures Valid() && users == old(users)
      ensures form.userId !in old(users) ==> r == Failure(UserNotFound)
      ensures form.userId in old(users) && HasPeriod(old(records), form.userId, form.targetPeriod)
              ==> r == Failure(DuplicateTarget)
      ensures form.userId in old(users) && !HasPeriod(old(records), form.userId, form.targetPeriod)
              && form.targetType.Unrecognised?
              ==> r == Failure(CreateFailedPrefix + InvalidTargetType)
      ensures r.Success? <==> form.userId in old(users) && !HasPeriod(old(records), form.userId, form.targetPeriod)
                              && !form.targetType.Unrecognised?
      ensures r.Failure? ==> records == old(records) && nextId == old(nextId)
      ensures r.Success? ==> r.data == SalesTarget(old(nextId), form.userId, form.targetType, form.targetPeriod,
                                                   form.targetAmount, 0, form.isActive)
                             && records == old(records) + [r.data]
    {
      if form.userId !in users {
        return Failure(UserNotFound);
      }
      if HasPeriod(records, form.userId, form.targetPeriod) {
        return Failure(DuplicateTarget);
      }
      if form.targetType.Unrecognised? {
        return Failure(CreateFailedPrefix + InvalidTargetType);
      }
      var t := SalesTarget(nextId, form.userId, form.targetType, form.targetPeriod, form.targetAmount, 0, form.isActive);
      records := records + [t];
      nextId := nextId + 1;
      r := Success(t);
    }

    /** `updateSalesTarget(id, data)`. */
    method Update(id: TargetId, form: TargetForm) returns (r: Result<SalesTarget>)
      requires Valid()
      modifies this
      ensures Valid() && users == old(users) && nextId == old(nextId)
      ensures HasPeriodElsewhere(old(records), form.userId, form.targetPeriod, id) ==> r == Failure(UpdateConflict)
      ensures !HasPeriodElsewhere(old(records), form.userId, form.targetPeriod, id)
              && (IndexOfId(old(records), id).None? || form.userId !in old(users) || form.targetType.Unrecognised?)
              ==> r == Failure(UpdateFailed)
      ensures r.Success? <==> !HasPeriodElsewhere(old(records), form.userId, form.targetPeriod, id)
                              && IndexOfId(old(records), id).Some? && form.userId in old(users)
                              && !form.targetType.Unrecognised?
      ensures r.Failure? ==> records == old(records)
      ensures r.Success? ==>
                && !HasPeriodElsewhere(old(records), form.userId, form.targetPeriod, id)
                && IndexOfId(old(records), id).Some?
                && var k := IndexOfId(old(records), id).value;
                   && r.data == old(records)[k].(userId := form.userId, targetType := form.targetType,
                                                 targetPeriod := form.targetPeriod, targetAmount := form.targetAmount,
                                                 isActive := form.isActive)
                   && records == old(records)[k := r.data]
    {
      if HasPeriodElsewhere(records, form.userId, form.targetPeriod, id) {
        return Failure(UpdateConflict);
      }
      var found := IndexOfId(records, id);
      if found.None? || form.userId !in users || form.targetType.Unrecognised? {
        return Failure(UpdateFailed);
      }
      var k := found.value;
      var t := records[k].(userId := form.userId, targetType := form.targetType, targetPeriod := form.targetPeriod,
                           targetAmount := form.targetAmount, isActive := form.isActive);
      ReplaceKeepsInvariant(records, users, nextId, k, t);
      records := records[k := t];
      r := Success(t);
    }

    /** `deleteSalesTarget(id)`. */
    method Delete(id: TargetId) returns (r: Result<()>)
      requires Valid()
      modifies this
      ensures Valid() && users == old(users) && nextId == old(nextId)
      ensures r.Failure? <==> IndexOfId(old(records), id).None?
      ensures r.Failure? ==> r == Failure(DeleteFailed) && records == old(records)
      ensures r.Success? ==> records == RemoveAt(old(records), IndexOfId(old(records), id).value)
      ensures forall t :: t in records <==> t in old(records) && t.id != id
    {
      var found := IndexOfId(records, id);
      if found.None? {
        return Failure(DeleteFailed);
      }
      var k := found.value;
      RemoveAtKeepsInvariant(records, users, nextId, k);
      RemoveAtMembers(records, k);
      records := RemoveAt(records, k);
      r := Success(());
    }

    /** `toggleSalesTargetStatus(id)`. */
    method Toggle(id: TargetId) returns (r: Result<SalesTarget>)
      requires Valid()
      modifies this
      ensures Valid() && users == old(users) && nextId == old(nextId)
      ensures r.Failure? <==> IndexOfId(old(records), id).None?
      ensures r.Failure? ==> r == Failure(TargetNotFound) && records == old(records)
      ensures r.Success? ==>
                var k := IndexOfId(old(records), id).value;
                && r.data == old(records)[k].(isActive := !old(records)[k].isActive)
                && records == old(records)[k := r.data]
    {
      var found := IndexOfId(records, id);
      if found.None? {
        return Failure(TargetNotFound);
      }
      var k := found.value;
      var t := records[k].(isActive := !records[k].isActive);
      assert !HasPeriodElsewhere(records, t.userId, t.targetPeriod, t.id);
      ReplaceKeepsInvariant(records, users, nextId, k, t);
      records := records[k := t];
      r := Success(t);
    }

    /** Toggling a record's status twice leaves the table as it was. */
    method ToggleTwice(id: TargetId) returns (first: Result<SalesTarget>, second: Result<SalesTarget>)
      requires Valid()
      modifies this
      ensures Valid() && records == old(records)
      ensures first.Success? == second.Success?
      ensures first.Success? <==> IndexOfId(old(records), id).Some?
    {
      first := Toggle(id);
      if first.Success? {
        ghost var k := IndexOfId(old(records), id).value;
        assert records[k].id == id;
        assert IndexOfId(records, id) == Some(k);
      }
      second := Toggle(id);
    }

    /** `updateAchievedAmount(userId, targetPeriod, newAmount)`. */
    method UpdateAchievedAmount(userId: UserId, period: string, newAmount: int) returns (r: Result<SalesTarget>)
      requires Valid()
      modifies this
      ensures Valid() && users == old(users) && nextId == old(nextId)
      ensures r.Failure? <==> FirstActive(old(records), userId, period).None?
      ensures r.Failure? ==> r == Failure(NoActiveTarget) && records == old(records)
      ensures r.Success? ==>
                var k := FirstActive(old(records), userId, period).value;
                && r.data == old(records)[k].(achievedAmount := newAmount)
                && records == old(records)[k := r.data]
    {
      var found := FirstActive(records, userId, period);
      if found.None? {
        return Failure(NoActiveTarget);
      }
      var k := found.value;
      var t := records[k].(achievedAmount := newAmount);
      FirstActiveIsTheRecord(records, userId, period, k);
      ReplaceKeepsInvariant(records, users, nextId, k, t);
      records := records[k := t];
      r := Success(t);
    }

    /**
     * `getTargetsForChart(userId, targetType)` against the invoice table `invoices`.
     * An omitted `targetType` (None) is MONTHLY. A failure stands for the error the source throws.
     */
    method TargetsForChart(userFilter: Option<UserId>, requestedType: Option<TargetType>, invoices: seq<Invoice>)
      returns (r: Result<seq<ChartRow>>)
      ensures r.Failure? <==> requestedType.Some? && requestedType.value.Unrecognised?
      ensures r.Failure? ==> r == Failure(ChartFailed)
      ensures r.Success? ==>
                var ts := ChartTargets(records, userFilter, if requestedType.None? then Monthly else requestedType.value);
                && |r.data| == |ts|
                && forall i | 0 <= i < |ts| :: r.data[i] == ChartRowOf(ts[i], invoices)
    {
      var targetType := if requestedType.None? then Monthly else requestedType.value;
      if targetType.Unrecognised? {
        return Failure(ChartFailed);
      }
      var rows := ChartRows(ChartTargets(records, userFilter, targetType), t => ChartRowOf(t, invoices));
      r := Success(rows);
    }
  }
}
