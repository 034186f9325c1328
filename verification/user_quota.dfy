/** The user quota guard: after users are created, or activated through a
    write, the active internal users are counted and compared with the quota
    the license server grants. */
module UserQuota {
  import opened Values
  import opened LicenseChecker

  /** The fields of a user record the guard looks at. */
  datatype User = User(id: int, active: bool, share: bool)

  /** Counted against the quota: active, internal (not a shared portal or
      public account), and neither the template admin (id 1) nor the bot (id 4). */
  predicate Counted(u: User)
  {
    u.active && !u.share && u.id != 1 && u.id != 4
  }

  /** The number of counted users in a table. */
  function InternalCount(users: seq<User>): (n: nat)
    ensures n <= |users|
    ensures n == 0 <==> forall i :: 0 <= i < |users| ==> !Counted(users[i])
  {
    if users == [] then 0
    else (if Counted(users[0]) then 1 else 0) + InternalCount(users[1..])
  }

  /** Counting splits over a concatenation of tables. */
  lemma {:induction false} InternalCountAppend(a: seq<User>, b: seq<User>)
    ensures InternalCount(a + b) == InternalCount(a) + InternalCount(b)
  {
    if a == [] {
      assert a + b == b;
    } else {
      assert (a + b)[1..] == a[1..] + b;
      InternalCountAppend(a[1..], b);
    }
  }

  /** Every user is counted exactly when the count is the table's size. */
  lemma {:induction false} AllCountedIffFull(users: seq<User>)
    ensures InternalCount(users) == |users| <==> forall i :: 0 <= i < |users| ==> Counted(users[i])
  {
    if users != [] {
      AllCountedIffFull(users[1..]);
      assert forall i :: 1 <= i < |users| ==> users[i] == users[1..][i - 1];
    }
  }

  /** A user that is not counted never changes the count, wherever it sits. */
  lemma UncountedIrrelevant(a: seq<User>, u: User, b: seq<User>)
    requires !Counted(u)
    ensures InternalCount(a + [u] + b) == InternalCount(a + b)
  {
    InternalCountAppend(a + [u], b);
    InternalCountAppend(a, [u]);
    InternalCountAppend(a, b);
  }

  /** The quota as a number for Python's `current > max_users`: a bool
      compares as 0 or 1, anything else but a number raises a TypeError. */
  function QuotaNumber(quota: Json): (q: Outcome<int>)
    ensures q.Returns? <==> quota.JInt? || quota.JBool?
    ensures quota.JInt? ==> q.value == quota.i
    ensures quota.JBool? ==> (q.value == 1 <==> quota.b) && (q.value == 0 <==> !quota.b)
    ensures q.Throws? ==> q.error == TypeError
  {
    match quota
    case JInt(i) => Returns(i)
    case JBool(b) => Returns(if b then 1 else 0)
    case _ => Throws(TypeError)
  }

  /** The decision of the guard. `limit` is the quota as the server sent it. */
  datatype QuotaVerdict =
    | Accepted
    | CannotCreate(current: int, limit: Json)
    | CannotActivate(current: int, limit: Json)
    | QuotaFailed(error: PyError)  // an exception the guard does not catch

  /** The license query made (if any), the user table the guard leaves and
      its verdict. */
  datatype Guarded = Guarded(sent: Option<Request>, users: seq<User>, verdict: QuotaVerdict)

  /** The count `create` reports, as written: the post-creation count less
      the number of records created, whether or not they are counted. */
  function ReportedCountAsWritten(before: seq<User>, created: seq<User>): (n: int)
    ensures n <= InternalCount(before)
    ensures n == InternalCount(before) <==> forall i :: 0 <= i < |created| ==> Counted(created[i])
  {
    InternalCountAppend(before, created);
    AllCountedIffFull(created);
    InternalCount(before + created) - |created|
  }

  /** A batch holding one internal and one portal user on top of one
      internal user: the message reports 0 users where there was 1 before. */
  lemma ReportedCountAsWrittenUnderreports()
    ensures var before := [User(2, true, false)];
            var created := [User(3, true, false), User(5, true, true)];
            && InternalCount(before + created) == 2
            && ReportedCountAsWritten(before, created) == 0
            && InternalCount(before) == 1
  {
    var before := [User(2, true, false)];
    var created := [User(3, true, false), User(5, true, true)];
    assert before + created == [User(2, true, false), User(3, true, false), User(5, true, true)];
  }

  /** The count `create` should report: the post-creation count less the
      counted users just created, which is the count before the creation. */
  function PreCreationCount(before: seq<User>, created: seq<User>): (n: nat)
    ensures n == InternalCount(before)
  {
    InternalCountAppend(before, created);
    InternalCount(before + created) - InternalCount(created)
  }

  /** The quota decision of `create` once the host has appended `created`
      to `before`; a refusal deletes what was created and reports `reported`. */
  function CreateDecision(config: Config, database: string, before: seq<User>, created: seq<User>,
                          remote: Request -> HttpOutcome, reported: int): Guarded
  {
    if !IsEnabled(config) then Guarded(None, before + created, Accepted)
    else
      var c := CheckLicense(config, database, "users", remote);
      match c.reply
      case Throws(e) => Guarded(c.sent, before + created, QuotaFailed(e))
      case Returns(quota) =>
        if quota == JNull then Guarded(c.sent, before + created, Accepted)
        else
          var current := InternalCount(before + created);
          match QuotaNumber(quota)
          case Throws(e) => Guarded(c.sent, before + created, QuotaFailed(e))
          case Returns(limit) =>
            if current > limit then Guarded(c.sent, before, CannotCreate(reported, quota))
            else Guarded(c.sent, before + created, Accepted)
  }

  /** `create` as written: the host has appended `created` to the table
      `before`; the guard then checks the quota, and on refusal deletes what
      was created and reports the post-creation count less `len(users)`. */
  function CreateUsers(config: Config, database: string, before: seq<User>, created: seq<User>,
                       remote: Request -> HttpOutcome): (g: Guarded)
    ensures !IsEnabled(config) ==> g == Guarded(None, before + created, Accepted)
    ensures IsEnabled(config) ==>
              var c := CheckLicense(config, database, "users", remote);
              && g.sent == c.sent
              && (c.reply == Returns(JNull) ==> g.users == before + created && g.verdict == Accepted)
              && (c.reply.Throws? ==> g.verdict == QuotaFailed(c.reply.error))
              && (c.reply.Returns? && c.reply.value != JNull && QuotaNumber(c.reply.value).Returns? ==>
                    if InternalCount(before + created) > QuotaNumber(c.reply.value).value
                    then g.verdict.CannotCreate? else g.verdict == Accepted)
              && (c.reply.Returns? && c.reply.value != JNull && QuotaNumber(c.reply.value).Throws? ==>
                    g.verdict == QuotaFailed(TypeError))
    ensures g.verdict.CannotCreate? ==>
              IsEnabled(config) && CheckLicense(config, database, "users", remote).reply == Returns(g.verdict.limit)
    ensures g.verdict.CannotCreate? ==>
              && g.users == before
              && g.verdict.current == InternalCount(before + created) - |created|
              && g.verdict.current <= InternalCount(before)
              && ((forall i :: 0 <= i < |created| ==> Counted(created[i])) ==> g.verdict.current == InternalCount(before))
    ensures !g.verdict.CannotCreate? ==> g.users == before + created
    ensures !g.verdict.CannotActivate?
  {
    CreateDecision(config, database, before, created, remote, ReportedCountAsWritten(before, created))
  }

  /** `create` with the corrected report: the same decision, the same table
      and the same query, but a refusal reports the count before the creation. */
  function CreateUsersCorrected(config: Config, database: string, before: seq<User>, created: seq<User>,
                                remote: Request -> HttpOutcome): (g: Guarded)
    ensures var w := CreateUsers(config, database, before, created, remote);
            && g.sent == w.sent
            && g.users == w.users
            && (g.verdict.CannotCreate? <==> w.verdict.CannotCreate?)
            && (!g.verdict.CannotCreate? ==> g.verdict == w.verdict)
            && (g.verdict.CannotCreate? ==> g.verdict.limit == w.verdict.limit)
    ensures g.verdict.CannotCreate? ==> g.verdict.current == InternalCount(before)
  {
    CreateDecision(config, database, before, created, remote, PreCreationCount(before, created))
  }

  /** A batch of users none of which is counted is still refused when the
      table was already over the quota, and only then. */
  lemma UncountedBatchRefusedOnlyWhenOver(config: Config, database: string, before: seq<User>,
                                          created: seq<User>, remote: Request -> HttpOutcome, quota: int)
    requires IsEnabled(config)
    requires CheckLicense(config, database, "users", remote).reply == Returns(JInt(quota))
    requires forall i :: 0 <= i < |created| ==> !Counted(created[i])
    ensures CreateUsers(config, database, before, created, remote).verdict.CannotCreate?
            <==> InternalCount(before) > quota
  {
    InternalCountAppend(before, created);
  }

  /** `write`: the host has applied the write, leaving `users`; only a write
      whose "active" value is exactly `True` is checked, and a rejection
      carries the post-write count. The guard itself undoes nothing. */
  function WriteUsers(config: Config, database: string, active: Option<Json>, users: seq<User>,
                      remote: Request -> HttpOutcome): (g: Guarded)
    ensures g.users == users
    ensures active != Some(JBool(true)) || !IsEnabled(config) ==> g == Guarded(None, users, Accepted)
    ensures active == Some(JBool(true)) && IsEnabled(config) ==>
              var c := CheckLicense(config, database, "users", remote);
              && g.sent == c.sent
              && (c.reply == Returns(JNull) ==> g.verdict == Accepted)
              && (c.reply.Throws? ==> g.verdict == QuotaFailed(c.reply.error))
              && (c.reply.Returns? && c.reply.value != JNull && QuotaNumber(c.reply.value).Returns? ==>
                    if InternalCount(users) > QuotaNumber(c.reply.value).value
                    then g.verdict.CannotActivate? else g.verdict == Accepted)
              && (c.reply.Returns? && c.reply.value != JNull && QuotaNumber(c.reply.value).Throws? ==>
                    g.verdict == QuotaFailed(TypeError))
    ensures g.verdict.CannotActivate? ==>
              active == Some(JBool(true)) && IsEnabled(config)
              && CheckLicense(config, database, "users", remote).reply == Returns(g.verdict.limit)
    ensures g.verdict.CannotActivate? ==> g.verdict.current == InternalCount(users)
    ensures !g.verdict.CannotCreate?
  {
    if active != Some(JBool(true)) || !IsEnabled(config) then Guarded(None, users, Accepted)
    else
      var c := CheckLicense(config, database, "users", remote);
      match c.reply
      case Throws(e) => Guarded(c.sent, users, QuotaFailed(e))
      case Returns(quota) =>
        if quota == JNull then Guarded(c.sent, users, Accepted)
        else
          var current := InternalCount(users);
          match QuotaNumber(quota)
          case Throws(e) => Guarded(c.sent, users, QuotaFailed(e))
          case Returns(limit) =>
            if current > limit then Guarded(c.sent, users, CannotActivate(current, quota))
            else Guarded(c.sent, users, Accepted)
  }
}
