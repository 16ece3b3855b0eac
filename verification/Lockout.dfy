/** The supplier login lockout (internal/suplier/auth_service.go): five failed password
    checks lock a phone for fifteen minutes, through a record that the file keeps in
    whole seconds. */
module Lockout {
  import opened Clock
  import opened Text

  import opened AuthRepository

  const MAX_FAILED: int := 5
  const LOCK: int := 15 * 60 * SECOND
  /** The lock a stored record is sure to keep, a second less than the lock set: 899 seconds. */
  const KEPT_LOCK: int := 899_000_000_000

  datatype Error = NotFound | Locked | InvalidPassword | AlreadyRegistered | PasswordRequired
  predicate IsLocked(a: Auth, now: int) {
    a.lockedUntil != ZERO_TIME && now < a.lockedUntil
  }

  /** The record after one more failed check. */
  function Failed(a: Auth, now: int): Auth {
    var attempts := a.failedAttempts + 1;
    a.(failedAttempts := attempts, lockedUntil := if attempts >= MAX_FAILED then now + LOCK else a.lockedUntil)
  }

  function Succeeded(a: Auth, now: int, telegram: int): Auth {
    a.(lastLoginAt := now, failedAttempts := 0, lockedUntil := ZERO_TIME,
       telegramUserId := if telegram != 0 then telegram else a.telegramUserId)
  }

  type BookOf = map<string, Auth>

  predicate Known(book: BookOf, phone: string) {
    phone in book && TrimSpace(book[phone].passwordHash) != ""
  }

  /** A call to the service: the phone is already normalised, `correct` is what the
      password comparison yields, `hash` what hashing the new password yields. */
  datatype Call =
    | Authenticate(phone: string, telegram: int, correct: bool, now: int)
    | Register(phone: string, telegram: int, password: string, hash: string, now: int)

  /** Whether a call gets as far as comparing the password. */
  predicate Checks(book: BookOf, c: Call) {
    c.Authenticate? && Known(book, c.phone) && !IsLocked(book[c.phone], c.now)
  }

  function Registered(book: BookOf, c: Call): Auth
    requires c.Register?
  {
    var first := if c.phone in book && book[c.phone].registeredAt != ZERO_TIME then book[c.phone].registeredAt else c.now;
    Auth(c.phone, c.hash, first, c.now, 0, ZERO_TIME, c.telegram)
  }

  /** The record a call writes, if it writes one. */
  function Written(book: BookOf, c: Call): Option<Auth> {
    match c
    case Authenticate(phone, telegram, correct, now) =>
      if !Checks(book, c) then None
      else if correct then Some(Succeeded(book[phone], now, telegram)) else Some(Failed(book[phone], now))
    case Register(phone, _, password, _, _) =>
      if TrimSpace(password) == "" || Known(book, phone) then None else Some(Registered(book, c))
  }

  function Outcome(book: BookOf, c: Call): Result<Auth, Error> {
    match c
    case Authenticate(phone, telegram, correct, now) =>
      if !Known(book, phone) then Err(NotFound)
      else if IsLocked(book[phone], now) then Err(Locked)
      else if correct then Ok(Succeeded(book[phone], now, telegram))
      else if IsLocked(Failed(book[phone], now), now) then Err(Locked) else Err(InvalidPassword)
    case Register(phone, _, password, _, _) =>
      if TrimSpace(password) == "" then Err(PasswordRequired)
      else if Known(book, phone) then Err(AlreadyRegistered) else Ok(Registered(book, c))
  }

  function Next(book: BookOf, c: Call): BookOf {
    match Written(book, c) case None => book case Some(a) => book[a.phone := Kept(a)]
  }

  /** Records are filed under their own phone. */
  ghost predicate Consistent(book: BookOf) {
    forall p :: p in book ==> book[p].phone == p
  }

  class AuthService {
    const repository: AuthFileRepository

    constructor (repository: AuthFileRepository)
      ensures this.repository == repository
    {
      this.repository := repository;
    }

    method Authenticate(phone: string, telegram: int, correct: bool, now: int) returns (r: Result<Auth, Error>)
      requires repository.Valid() && Consistent(repository.Contents())
      modifies repository
      ensures repository.Valid()
      ensures var c := Call.Authenticate(phone, telegram, correct, now);
        && repository.Contents() == Next(old(repository.Contents()), c)
        && r == Outcome(old(repository.Contents()), c)
    {
      hide TrimSpace, Kept, Consistent;
      var found := repository.FindByPhone(phone);
      if found.None? || TrimSpace(found.value.passwordHash) == "" {
        return Err(NotFound);
      }
      var auth := found.value;
      if auth.lockedUntil != ZERO_TIME && now < auth.lockedUntil {
        return Err(Locked);
      }
      if !correct {
        auth := auth.(failedAttempts := auth.failedAttempts + 1);
        if auth.failedAttempts >= MAX_FAILED {
          auth := auth.(lockedUntil := now + LOCK);
        }
        repository.Upsert(auth);
        if auth.lockedUntil != ZERO_TIME && now < auth.lockedUntil {
          return Err(Locked);
        }
        return Err(InvalidPassword);
      }
      auth := auth.(lastLoginAt := now);
      auth := auth.(failedAttempts := 0);
      auth := auth.(lockedUntil := ZERO_TIME);
      if telegram != 0 {
        auth := auth.(telegramUserId := telegram);
      }
      repository.Upsert(auth);
      r := Ok(auth);
    }

    method Register(phone: string, telegram: int, password: string, hash: string, now: int) returns (r: Result<Auth, Error>)
      requires repository.Valid()
      modifies repository
      ensures repository.Valid()
      ensures var c := Call.Register(phone, telegram, password, hash, now);
        && repository.Contents() == Next(old(repository.Contents()), c)
        && r == Outcome(old(repository.Contents()), c)
    {
      if TrimSpace(password) == "" {
        return Err(PasswordRequired);
      }
      var existing := repository.FindByPhone(phone);
      if existing.Some? && TrimSpace(existing.value.passwordHash) != "" {
        return Err(AlreadyRegistered);
      }
      var auth := Auth(phone, hash, now, now, 0, ZERO_TIME, telegram);
      if existing.Some? && existing.value.registeredAt != ZERO_TIME {
        auth := auth.(registeredAt := existing.value.registeredAt);
      }
      repository.Upsert(auth);
      r := Ok(auth);
    }
  }

  // ----- one failed check -----

  lemma NextIsConsistent(book: BookOf, c: Call)
    requires Consistent(book)
    ensures Consistent(Next(book, c))
  {
    hide TrimSpace;
  }

  /** A stored lock lasts more than 899 seconds. */
  lemma LockIsKept(t: int)
    requires t >= 0
    ensures FromUnix(Unix(t + LOCK)) > t + KEPT_LOCK
    ensures FromUnix(Unix(t + LOCK)) != ZERO_TIME
  {
  }

  /** What one failed check leaves in the file: one more failure, in 32 bits, and from
      the fifth on a lock that holds up to the second in which fifteen minutes end, which is
      more than 899 seconds; before the fifth the lock is as it was. */
  lemma FailedIsKept(book: BookOf, c: Call)
    requires Consistent(book) && Checks(book, c) && !c.correct && c.now >= 0
    ensures Known(Next(book, c), c.phone)
    ensures Next(book, c)[c.phone].failedAttempts == Int32(book[c.phone].failedAttempts + 1)
    ensures book[c.phone].failedAttempts + 1 >= 5 ==>
      && (forall t: int :: IsLocked(Next(book, c)[c.phone], t) <==> t < (c.now / 1_000_000_000 + 900) * 1_000_000_000)
      && (forall t: int :: t <= c.now + KEPT_LOCK ==> IsLocked(Next(book, c)[c.phone], t))
    ensures book[c.phone].failedAttempts + 1 < 5 ==>
      Next(book, c)[c.phone].lockedUntil == FromUnix(Unix(book[c.phone].lockedUntil))
    ensures var was, left := book[c.phone], Next(book, c)[c.phone];
      left.passwordHash == was.passwordHash && left.telegramUserId == was.telegramUserId
      && left.registeredAt == FromUnix(Unix(was.registeredAt)) && left.lastLoginAt == FromUnix(Unix(was.lastLoginAt))
  {
    hide TrimSpace;
    LockIsKept(c.now);
  }

  /** What a login answers, case by case: unknown, locked, right, or wrong, the fifth wrong
      password being answered as locked. */
  lemma LoginAnswers(book: BookOf, c: Call)
    requires Consistent(book) && c.Authenticate? && c.now >= 0
    ensures Known(book, c.phone) <==> c.phone in book && TrimSpace(book[c.phone].passwordHash) != ""
    ensures Outcome(book, c) == Err(NotFound) <==> !Known(book, c.phone)
    ensures Outcome(book, c).Ok? <==> Checks(book, c) && c.correct
    ensures Outcome(book, c) == Err(InvalidPassword) <==> Checks(book, c) && !c.correct && book[c.phone].failedAttempts + 1 < 5
    ensures Outcome(book, c) == Err(Locked) <==>
      Known(book, c.phone) && (IsLocked(book[c.phone], c.now) || (!c.correct && book[c.phone].failedAttempts + 1 >= 5))
    ensures !Checks(book, c) ==> Next(book, c) == book
    ensures Checks(book, c) <==> Known(book, c.phone) && !IsLocked(book[c.phone], c.now)
  {
    hide TrimSpace;
  }

  /** A login succeeds exactly with the right password on a known, unlocked phone; it
      clears the count and the lock and keeps the password. */
  lemma LoginClears(book: BookOf, c: Call)
    requires Consistent(book) && c.Authenticate?
    ensures Outcome(book, c).Ok? <==> Checks(book, c) && c.correct
    ensures Outcome(book, c).Ok? ==>
      var a := Next(book, c)[c.phone];
      && Known(Next(book, c), c.phone) && a.failedAttempts == 0 && a.passwordHash == book[c.phone].passwordHash
      && a.lastLoginAt == FromUnix(Unix(c.now)) && a.registeredAt == FromUnix(Unix(book[c.phone].registeredAt))
      && a.telegramUserId == (if c.telegram != 0 then c.telegram else book[c.phone].telegramUserId)
      && Outcome(book, c).value == book[c.phone].(failedAttempts := 0, lockedUntil := ZERO_TIME, lastLoginAt := c.now, telegramUserId := a.telegramUserId)
      && forall t :: !IsLocked(a, t)
  {
    hide TrimSpace;
  }

  /** Only a phone without a password can be registered; it starts unlocked, with its
      first registration time to the second. */
  lemma RegistrationStarts(book: BookOf, c: Call)
    requires Consistent(book) && c.Register?
    ensures Outcome(book, c).Ok? <==> TrimSpace(c.password) != "" && !Known(book, c.phone)
    ensures Outcome(book, c).Ok? ==>
      var a := Next(book, c)[c.phone];
      && a.passwordHash == c.hash && a.failedAttempts == 0 && (forall t :: !IsLocked(a, t))
      && (c.phone in book && book[c.phone].registeredAt != ZERO_TIME ==> a.registeredAt == FromUnix(Unix(book[c.phone].registeredAt)))
      && (c.phone !in book || book[c.phone].registeredAt == ZERO_TIME ==> a.registeredAt == FromUnix(Unix(c.now)))
      && a.lastLoginAt == FromUnix(Unix(c.now)) && a.telegramUserId == c.telegram
    ensures Outcome(book, c) == Err(PasswordRequired) <==> TrimSpace(c.password) == ""
    ensures Outcome(book, c) == Err(AlreadyRegistered) <==> TrimSpace(c.password) != "" && Known(book, c.phone)
    ensures Outcome(book, c).Err? ==> Next(book, c) == book
  {
    hide TrimSpace;
  }

  /** A call that does not check this phone's password leaves its record alone. */
  lemma OthersKeep(book: BookOf, c: Call, phone: string)
    requires Consistent(book) && Known(book, phone)
    requires !(Checks(book, c) && c.phone == phone)
    ensures Known(Next(book, c), phone) && Next(book, c)[phone] == book[phone]
  {
    hide TrimSpace;
  }

  // ----- runs -----

  /** The times of the failed password checks of a phone. */
  function Failures(book: BookOf, calls: seq<Call>, phone: string): seq<int>
    decreases |calls|
  {
    if |calls| == 0 then []
    else
      var c := calls[0];
      (if Checks(book, c) && c.phone == phone && !c.correct then [c.now] else [])
      + Failures(Next(book, c), calls[1..], phone)
  }

  /** No call of the run logs the phone in. */
  predicate NoLogin(book: BookOf, calls: seq<Call>, phone: string)
    decreases |calls|
  {
    |calls| == 0
    || (!(Checks(book, calls[0]) && calls[0].phone == phone && calls[0].correct)
        && NoLogin(Next(book, calls[0]), calls[1..], phone))
  }

  predicate InOrder(calls: seq<Call>) {
    && (forall i :: 0 <= i < |calls| ==> calls[i].now >= 0)
    && (forall i, j :: 0 <= i < j < |calls| ==> calls[i].now <= calls[j].now)
  }

  /** Every two neighbouring failures, once the count has reached five, are more than
      899 seconds apart. */
  predicate Spaced(failures: seq<int>, before: int) {
    forall i :: 0 <= i < |failures| - 1 && before + i + 1 >= 5 ==> failures[i + 1] - failures[i] > KEPT_LOCK
  }

  lemma OneCall(book: BookOf, calls: seq<Call>, phone: string)
    requires |calls| > 0 && NoLogin(book, calls, phone)
    ensures NoLogin(Next(book, calls[0]), calls[1..], phone)
    ensures Checks(book, calls[0]) && calls[0].phone == phone ==> !calls[0].correct
    ensures var rest := Failures(Next(book, calls[0]), calls[1..], phone);
      Failures(book, calls, phone) == if Checks(book, calls[0]) && calls[0].phone == phone then [calls[0].now] + rest else rest
  {
    hide Next, Checks;
  }

  lemma LaterInOrder(calls: seq<Call>)
    requires |calls| > 0 && InOrder(calls)
    ensures InOrder(calls[1..]) && calls[0].now >= 0
  {
  }

  /** No failed check happens while the record at hand is locked. */
  lemma {:induction false} FirstFailureIsUnlocked(book: BookOf, calls: seq<Call>, phone: string)
    requires Consistent(book) && Known(book, phone) && NoLogin(book, calls, phone)
    ensures |Failures(book, calls, phone)| > 0 ==> !IsLocked(book[phone], Failures(book, calls, phone)[0])
    decreases |calls|
  {
    hide TrimSpace, Next, IsLocked, Consistent, Checks, Failures, NoLogin;
    if |calls| == 0 {
      NoFailures(book, phone, 0);
    } else {
      var c := calls[0];
      OneCall(book, calls, phone);
      NextIsConsistent(book, c);
      if Checks(book, c) && c.phone == phone {
        ChecksMeans(book, c);
      } else {
        OthersKeep(book, c, phone);
        FirstFailureIsUnlocked(Next(book, c), calls[1..], phone);
      }
    }
  }

  /** In any run without a login, whatever else happens to other phones, failed checks of
      a phone are spaced, up to two more than the stored count can hold. */
  lemma {:induction false} FailuresAreSpaced(book: BookOf, calls: seq<Call>, phone: string)
    requires Consistent(book) && Known(book, phone) && InOrder(calls) && NoLogin(book, calls, phone)
    requires -INT32_MAX - 1 <= book[phone].failedAttempts <= INT32_MAX
    requires book[phone].failedAttempts + |Failures(book, calls, phone)| <= INT32_MAX + 2
    ensures Spaced(Failures(book, calls, phone), book[phone].failedAttempts)
    decreases |calls|
  {
    hide TrimSpace, Next, IsLocked, Consistent, Checks, Failures, NoLogin, InOrder, Spaced;
    if |calls| == 0 {
      NoFailures(book, phone, book[phone].failedAttempts);
    } else {
      var c := calls[0];
      OneCall(book, calls, phone);
      LaterInOrder(calls);
      var rest := Failures(Next(book, c), calls[1..], phone);
      NextIsConsistent(book, c);
      if Checks(book, c) && c.phone == phone {
        ChecksMeans(book, c);
        FailedIsKept(book, c);
        FirstFailureIsUnlocked(Next(book, c), calls[1..], phone);
        if book[phone].failedAttempts < INT32_MAX {
          FailuresAreSpaced(Next(book, c), calls[1..], phone);
        }
        SpacedCons(c.now, rest, book[phone].failedAttempts);
      } else {
        OthersKeep(book, c, phone);
        FailuresAreSpaced(Next(book, c), calls[1..], phone);
      }
    }
  }

  lemma NoFailures(book: BookOf, phone: string, before: int)
    ensures Failures(book, [], phone) == [] && Spaced([], before)
  {
  }

  lemma ChecksMeans(book: BookOf, c: Call)
    requires Checks(book, c)
    ensures c.Authenticate? && Known(book, c.phone) && !IsLocked(book[c.phone], c.now)
  {
  }

  lemma SpacedCons(first: int, rest: seq<int>, before: int)
    requires Spaced(rest, before + 1)
    requires |rest| > 0 && before + 1 >= 5 ==> rest[0] > first + KEPT_LOCK
    ensures Spaced([first] + rest, before)
  {
    var all := [first] + rest;
    forall i | 0 <= i < |all| - 1 && before + i + 1 >= 5 ensures all[i + 1] - all[i] > KEPT_LOCK {
      if i > 0 { assert all[i + 1] == rest[i] && all[i] == rest[i - 1]; }
    }
  }

  lemma {:induction false} SpacedSpan(failures: seq<int>, before: int, from: nat, k: nat)
    requires Spaced(failures, before) && before + from + 1 >= 5 && from < k < |failures|
    ensures failures[k] - failures[from] > (k - from) * KEPT_LOCK
    decreases k
  {
    if k > from + 1 { SpacedSpan(failures, before, from, k - 1); }
  }

  lemma {:induction false} FailuresInOrder(book: BookOf, calls: seq<Call>, phone: string)
    requires InOrder(calls)
    ensures forall i, j :: 0 <= i < j < |Failures(book, calls, phone)| ==> Failures(book, calls, phone)[i] <= Failures(book, calls, phone)[j]
    ensures forall i :: 0 <= i < |Failures(book, calls, phone)| ==> Failures(book, calls, phone)[i] >= calls[0].now
    decreases |calls|
  {
    hide Checks, Next;
    if |calls| > 0 {
      FailuresInOrder(Next(book, calls[0]), calls[1..], phone);
    }
  }

  /** k failed checks of a phone with a clean record take more than (k - 5) * 899 seconds;
      a record that already counts failures only makes it longer. */
  lemma GuessingTakesTime(book: BookOf, calls: seq<Call>, phone: string)
    requires Consistent(book) && Known(book, phone) && InOrder(calls) && NoLogin(book, calls, phone)
    requires -INT32_MAX - 1 <= book[phone].failedAttempts <= INT32_MAX
    requires book[phone].failedAttempts + |Failures(book, calls, phone)| <= INT32_MAX + 2
    ensures var fs := Failures(book, calls, phone); var k := |fs|; var count := book[phone].failedAttempts;
      var free := if count < 5 then 5 - count else 1;
      k > free ==> fs[k - 1] - fs[0] > (k - free) * KEPT_LOCK
  {
    hide TrimSpace, Next, Checks, Consistent, NoLogin;
    var fs := Failures(book, calls, phone);
    var count := book[phone].failedAttempts;
    var from := if count < 5 then 5 - 1 - count else 0;
    FailuresAreSpaced(book, calls, phone);
    FailuresInOrder(book, calls, phone);
    if |fs| > from + 1 { SpacedSpan(fs, count, from, |fs| - 1); }
  }

  // ----- past the stored count -----

  /** The book after a run. */
  function After(book: BookOf, calls: seq<Call>): BookOf
    decreases |calls|
  {
    if |calls| == 0 then book else After(Next(book, calls[0]), calls[1..])
  }

  lemma {:induction false} FailuresConcat(book: BookOf, a: seq<Call>, b: seq<Call>, phone: string)
    ensures Failures(book, a + b, phone) == Failures(book, a, phone) + Failures(After(book, a), b, phone)
    decreases |a|
  {
    hide Checks, Next;
    if |a| == 0 {
      assert a + b == b;
    } else {
      assert (a + b)[1..] == a[1..] + b;
      FailuresConcat(Next(book, a[0]), a[1..], b, phone);
    }
  }

  predicate AllWrong(calls: seq<Call>) {
    forall i :: 0 <= i < |calls| ==> calls[i].Authenticate? && !calls[i].correct
  }

  lemma {:induction false} WrongNeverLogsIn(book: BookOf, calls: seq<Call>, phone: string)
    requires AllWrong(calls)
    ensures NoLogin(book, calls, phone)
    decreases |calls|
  {
    hide Checks, Next;
    if |calls| > 0 { WrongNeverLogsIn(Next(book, calls[0]), calls[1..], phone); }
  }

  function Wrong(phone: string, t: int): Call { Call.Authenticate(phone, 0, false, t) }

  /** Someone who tries a wrong password each time the lock has passed. */
  function Patient(phone: string, t: int, n: nat): (calls: seq<Call>)
    ensures |calls| == n && AllWrong(calls)
    ensures forall i :: 0 <= i < n ==> calls[i].now == t + i * LOCK
    decreases n
  {
    if n == 0 then []
    else
      var rest := Patient(phone, t + LOCK, n - 1);
      assert forall i :: 0 < i < n ==> ([Wrong(phone, t)] + rest)[i] == rest[i - 1];
      [Wrong(phone, t)] + rest
  }

  /** Known, counting `count`, and not locked from t on. */
  ghost predicate Open(book: BookOf, phone: string, count: int, t: int) {
    && Consistent(book) && Known(book, phone) && book[phone].failedAttempts == Int32(count)
    && forall now :: now >= t ==> !IsLocked(book[phone], now)
  }

  lemma Int32Next(n: int)
    ensures Int32(Int32(n) + 1) == Int32(n + 1)
  {
  }

  /** A wrong try at an open moment counts, and the phone is open again once the lock has
      passed, or at the same moment if the count is too low to lock. */
  lemma WrongTry(book: BookOf, phone: string, count: int, t: int)
    requires Open(book, phone, count, t) && t >= 0
    ensures Checks(book, Wrong(phone, t))
    ensures Open(Next(book, Wrong(phone, t)), phone, count + 1, t + LOCK)
    ensures Int32(count) + 1 < 5 ==> Open(Next(book, Wrong(phone, t)), phone, count + 1, t)
  {
    hide TrimSpace, Int32;
    Int32Next(count);
    NextIsConsistent(book, Wrong(phone, t));
    KeptTime(t + LOCK);
    KeptTime(book[phone].lockedUntil);
  }

  lemma {:induction false} PatientFails(book: BookOf, phone: string, count: int, t: int, n: nat)
    requires Open(book, phone, count, t) && t >= 0
    ensures |Failures(book, Patient(phone, t, n), phone)| == n
    ensures Open(After(book, Patient(phone, t, n)), phone, count + n, t + n * LOCK)
    decreases n
  {
    hide Open, Checks, Next;
    if n > 0 {
      var c := Wrong(phone, t);
      WrongTry(book, phone, count, t);
      PatientFails(Next(book, c), phone, count + 1, t + LOCK, n - 1);
      assert Patient(phone, t, n)[1..] == Patient(phone, t + LOCK, n - 1);
    }
  }

  /** Once the stored count is negative, two checks go through at one moment. */
  lemma CountWraps(book: BookOf, phone: string, t: int)
    requires Open(book, phone, INT32_MAX + 1, t) && t >= 0
    ensures var c := Wrong(phone, t);
      && Failures(book, [c, c], phone) == [t, t]
      && Open(After(book, [c, c]), phone, INT32_MAX + 3, t + LOCK)
  {
    hide Open, Checks, Next;
    var c := Wrong(phone, t);
    WrongTry(book, phone, INT32_MAX + 1, t);
    WrongTry(Next(book, c), phone, INT32_MAX + 2, t);
    assert [c, c][1..] == [c] && [c][1..] == [];
    assert After(book, [c, c]) == After(Next(book, c), [c]) == After(Next(Next(book, c), c), []);
    assert Failures(Next(Next(book, c), c), [], phone) == [];
    assert Failures(Next(book, c), [c], phone) == [t];
  }

  /** A run without a login in which exactly k checks of the phone fail. */
  ghost predicate RunOf(book: BookOf, calls: seq<Call>, phone: string, k: nat) {
    InOrder(calls) && NoLogin(book, calls, phone) && |Failures(book, calls, phone)| == k
  }

  lemma NotSpacedAt(failures: seq<int>, before: int, i: nat)
    requires i + 1 < |failures| && failures[i] == failures[i + 1] && before + i + 1 >= 5
    ensures !Spaced(failures, before)
  {
  }

  /** Patience up to the count the record cannot hold, two tries at once, and patience
      again. */
  function Impatient(phone: string, t: int, n: nat, m: nat): seq<Call> {
    var twice := Wrong(phone, t + n * LOCK);
    Patient(phone, t, n) + ([twice, twice] + Patient(phone, t + n * LOCK + LOCK, m))
  }

  lemma ImpatientFails(book: BookOf, phone: string, count: int, t: int, n: nat, m: nat)
    requires Open(book, phone, count, t) && t >= 0 && count + n == INT32_MAX + 1
    ensures var fs := Failures(book, Impatient(phone, t, n, m), phone);
      |fs| == n + 2 + m && fs[n] == fs[n + 1]
  {
    hide Open, Failures, After, Wrong, Patient;
    var first, twice := Patient(phone, t, n), Wrong(phone, t + n * LOCK);
    var last := Patient(phone, t + n * LOCK + LOCK, m);
    PatientFails(book, phone, count, t, n);
    CountWraps(After(book, first), phone, t + n * LOCK);
    var middle := After(After(book, first), [twice, twice]);
    PatientFails(middle, phone, INT32_MAX + 3, t + n * LOCK + LOCK, m);
    FailuresConcat(book, first, [twice, twice] + last, phone);
    FailuresConcat(After(book, first), [twice, twice], last, phone);
  }

  lemma UnspacedRun(book: BookOf, phone: string, k: nat) returns (calls: seq<Call>)
    requires Consistent(book) && Known(book, phone) && -INT32_MAX - 1 <= book[phone].failedAttempts <= INT32_MAX
    requires book[phone].failedAttempts + k > INT32_MAX + 2
    ensures RunOf(book, calls, phone, k) && !Spaced(Failures(book, calls, phone), book[phone].failedAttempts)
  {
    hide TrimSpace, IsLocked, Next, Checks, NoLogin, Spaced, Open, Patient, InOrder;
    var count := book[phone].failedAttempts;
    var n: nat := INT32_MAX + 1 - count;
    var t := if book[phone].lockedUntil > 0 then book[phone].lockedUntil else 0;
    OpenAfterLock(book, phone, t);
    calls := Impatient(phone, t, n, k - n - 2);
    ImpatientFails(book, phone, count, t, n, k - n - 2);
    ImpatientIsWrong(phone, t, n, k - n - 2);
    WrongNeverLogsIn(book, calls, phone);
    NotSpacedAt(Failures(book, calls, phone), count, n);
  }

  lemma OpenAfterLock(book: BookOf, phone: string, t: int)
    requires Consistent(book) && Known(book, phone) && -INT32_MAX - 1 <= book[phone].failedAttempts <= INT32_MAX
    requires t >= book[phone].lockedUntil
    ensures Open(book, phone, book[phone].failedAttempts, t)
  {
    hide Known, Consistent;
  }

  lemma OrderedConcat(a: seq<Call>, b: seq<Call>, t: int)
    requires InOrder(a) && InOrder(b) && AllWrong(a) && AllWrong(b)
    requires forall i :: 0 <= i < |a| ==> a[i].now <= t
    requires forall i :: 0 <= i < |b| ==> t <= b[i].now
    ensures InOrder(a + b) && AllWrong(a + b)
  {
  }

  lemma PatientInOrder(phone: string, t: int, n: nat)
    requires t >= 0
    ensures InOrder(Patient(phone, t, n))
    ensures forall i :: 0 <= i < n ==> t <= Patient(phone, t, n)[i].now <= t + n * LOCK
  {
    hide Patient;
    var calls := Patient(phone, t, n);
    forall i, j | 0 <= i < j < n ensures calls[i].now <= calls[j].now {
    }
  }

  lemma ImpatientIsWrong(phone: string, t: int, n: nat, m: nat)
    requires t >= 0
    ensures InOrder(Impatient(phone, t, n, m)) && AllWrong(Impatient(phone, t, n, m))
  {
    hide Patient, InOrder;
    var now := t + n * LOCK;
    PatientInOrder(phone, t, n);
    PatientInOrder(phone, now + LOCK, m);
    TwiceInOrder(Wrong(phone, now));
    OrderedConcat([Wrong(phone, now), Wrong(phone, now)], Patient(phone, now + LOCK, m), now);
    OrderedConcat(Patient(phone, t, n), [Wrong(phone, now), Wrong(phone, now)] + Patient(phone, now + LOCK, m), now);
  }

  lemma TwiceInOrder(c: Call)
    requires c.now >= 0
    ensures InOrder([c, c])
  {
  }

  /** The spacing holds in every run with k failures exactly when the count and k
      together are at most two more than the stored count can hold. */
  lemma SpacingIff(book: BookOf, phone: string, k: nat)
    requires Consistent(book) && Known(book, phone) && -INT32_MAX - 1 <= book[phone].failedAttempts <= INT32_MAX
    ensures book[phone].failedAttempts + k <= INT32_MAX + 2 <==>
      forall calls :: RunOf(book, calls, phone, k) ==> Spaced(Failures(book, calls, phone), book[phone].failedAttempts)
  {
    hide TrimSpace, Consistent, Next, Checks, NoLogin, Spaced, Failures, InOrder;
    if book[phone].failedAttempts + k <= INT32_MAX + 2 {
      forall calls | RunOf(book, calls, phone, k) ensures Spaced(Failures(book, calls, phone), book[phone].failedAttempts) {
        FailuresAreSpaced(book, calls, phone);
      }
    } else {
      var calls := UnspacedRun(book, phone, k);
    }
  }
}
