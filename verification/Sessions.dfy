/** Login sessions whose expiry is stored, purged and looked up as text. */
module Sessions {
  import opened Text
  import opened Timestamps

  const MAXIMUM_TTL: int := 30 * 24 * 3600 * SECOND
  const MAXIMUM_TOKEN: nat := 256

  datatype User = User(name: string, role: string, active: bool)

  datatype Row = Row(userId: int, csrf: string, expires: string)

  /** Sessions by the digest of their token. */
  type Rows = map<string, Row>

  datatype Session = Session(userId: int, user: User, csrf: string, expiresAt: int)

  datatype Error = BadDuration | NoSuchUser | NotUnique | InvalidSession | BadExpiry

  datatype Result<+T> = Ok(value: T) | Err(error: Error)

  // ---------- the two predicates on expiry ----------

  /** The purge: expiry <= now, as text. */
  predicate Purged(expires: string, now: string) { expires == now || Less(expires, now) }

  /** The lookup: expiry > now, as text. */
  predicate Accepted(expires: string, now: string) { Less(now, expires) }

  /** At one instant a session is either purged or accepted, never both, never neither, whatever its stored text. */
  lemma PurgeComplementsLookup(expires: string, now: string)
    ensures Purged(expires, now) <==> !Accepted(expires, now)
  {
    LessTrichotomy(expires, now);
  }

  /**
    * When a stored expiry is accepted: before it, unless now shares its second and the digits of now begin those of
    * the expiry; and after it only in its own second, when its digits begin those of now.
    */
  lemma AcceptedExactly(expires: Instant, now: Instant)
    requires FourDigitYear(expires) && FourDigitYear(now)
    ensures Accepted(Stamp(expires), Stamp(now)) <==>
            if now < expires then !(WholeSecond(now) == WholeSecond(expires) && Fraction(now) <= Fraction(expires))
            else now != expires && WholeSecond(now) == WholeSecond(expires) && Fraction(expires) <= Fraction(now)
  {
    LessTrichotomy(Stamp(now), Stamp(expires));
    if now < expires {
      TextOrder(now, expires);
    } else if expires < now {
      TextOrder(expires, now);
    }
  }

  /** Never accepted a second or more after expiry, never refused a second or more before it. */
  lemma ExpiryIsRightToTheSecond(expires: Instant, now: Instant)
    requires FourDigitYear(expires) && FourDigitYear(now)
    ensures now >= expires + SECOND ==> !Accepted(Stamp(expires), Stamp(now))
    ensures now + SECOND <= expires ==> Accepted(Stamp(expires), Stamp(now))
  {
    AcceptedExactly(expires, now);
  }

  /**
    * When a purge removes what a lookup then or later would accept: exactly if all three instants share one second, in
    * which the digits make the expiry no later than the purge, as text, and yet later than the lookup.
    */
  lemma EarlyPurgeExactly(expires: Instant, purge: Instant, now: Instant)
    requires FourDigitYear(expires) && FourDigitYear(purge) && FourDigitYear(now) && purge <= now
    ensures Purged(Stamp(expires), Stamp(purge)) && Accepted(Stamp(expires), Stamp(now)) <==>
              && WholeSecond(purge) == WholeSecond(expires) == WholeSecond(now)
              && (if purge < expires then Fraction(purge) <= Fraction(expires)
                  else purge == expires || !(Fraction(expires) <= Fraction(purge)))
              && (if now < expires then !(Fraction(now) <= Fraction(expires))
                  else now != expires && Fraction(expires) <= Fraction(now))
  {
    PurgeComplementsLookup(Stamp(expires), Stamp(purge));
    AcceptedExactly(expires, purge);
    AcceptedExactly(expires, now);
  }

  /** In particular a purge only removes what no later lookup would accept, except inside the second in which the session expires. */
  lemma PurgedStaysDead(expires: Instant, purge: Instant, now: Instant)
    requires FourDigitYear(expires) && FourDigitYear(purge) && FourDigitYear(now) && purge <= now
    requires Purged(Stamp(expires), Stamp(purge)) && Accepted(Stamp(expires), Stamp(now))
    ensures WholeSecond(purge) == WholeSecond(expires) == WholeSecond(now)
  {
    hide Purged, Accepted;
    EarlyPurgeExactly(expires, purge, now);
  }

  /** The exception is real: a session that expires at .7 is removed by a purge on the full second, yet a lookup at .5 would accept it. */
  lemma PurgeMayComeEarly()
    ensures Purged(Stamp(700_000_000), Stamp(0)) && Accepted(Stamp(700_000_000), Stamp(500_000_000))
    ensures FourDigitYear(700_000_000)
  {
    TrimmedPrefix(0, 700_000_000);
    TextOrder(0, 700_000_000);
    PurgeComplementsLookup(Stamp(700_000_000), Stamp(0));
    LessTrichotomy(Stamp(0), Stamp(700_000_000));
    TenthsDiffer();
    TextOrder(500_000_000, 700_000_000);
  }

  lemma TenthsDiffer()
    ensures !(Fraction(500_000_000) <= Fraction(700_000_000))
  {
    FirstDigit(500_000_000, 5);
    FirstDigit(700_000_000, 7);
    TrimmedLength(Pad(500_000_000, 9), 0);
  }

  lemma FirstDigit(n: nat, d: nat)
    requires n == d * 100_000_000 && d < 10
    ensures Pad(n, 9)[0] == Digit(d)
  {
    assert n / 10 / 10 / 10 / 10 == d * 10_000;
    assert Pad(d, 1) == Pad(0, 0) + [Digit(d)];
    assert Pad(d * 10_000, 5)[0] == Digit(d) by {
      assert Pad(d * 10, 2)[0] == Pad(d, 1)[0] && Pad(d * 100, 3)[0] == Pad(d * 10, 2)[0] && Pad(d * 1000, 4)[0] == Pad(d * 100, 3)[0];
    }
    assert Pad(d * 1_000_000, 7)[0] == Pad(d * 100_000, 6)[0] == Pad(d * 10_000, 5)[0];
    assert Pad(d * 100_000_000, 9)[0] == Pad(d * 10_000_000, 8)[0] == Pad(d * 1_000_000, 7)[0];
  }

  // ---------- the table ----------

  function Purge(rows: Rows, now: Instant): Rows {
    map digest | digest in rows && !Purged(rows[digest].expires, Stamp(now)) :: rows[digest]
  }

  predicate Clashes(rows: Rows, digest: string, csrf: string) {
    digest in rows || exists other :: other in rows && rows[other].csrf == csrf
  }

  /** CreateSession: two statements, not one transaction, so that a refused insert leaves the purge done. */
  function Create(rows: Rows, users: map<int, User>, userId: int, ttl: int, digest: string, csrf: string, now: Instant): (Rows, Result<Session>) {
    if ttl <= 0 || ttl > MAXIMUM_TTL then (rows, Err(BadDuration))
    else if userId !in users || !users[userId].active then (rows, Err(NoSuchUser))
    else
      var kept := Purge(rows, now);
      if Clashes(kept, digest, csrf) then (kept, Err(NotUnique))
      else
        var expiresAt := now + ttl;
        (kept[digest := Row(userId, csrf, Stamp(expiresAt))], Ok(Session(userId, users[userId], csrf, expiresAt)))
  }

  predicate TokenShaped(token: string) { token != "" && ByteLength(token) <= MAXIMUM_TOKEN }

  function Find(rows: Rows, users: map<int, User>, token: string, hash: string -> string, now: Instant): Result<Session> {
    if !TokenShaped(token) || hash(token) !in rows then Err(InvalidSession)
    else
      var row := rows[hash(token)];
      if !Accepted(row.expires, Stamp(now)) || row.userId !in users || !users[row.userId].active then Err(InvalidSession)
      else
        match ReadStamp(row.expires)
        case Some(expiresAt) => Ok(Session(row.userId, users[row.userId], row.csrf, expiresAt))
        case None => Err(BadExpiry)
  }

  function Delete(rows: Rows, token: string, hash: string -> string): Rows {
    if TokenShaped(token) then rows - {hash(token)} else rows
  }

  /** A new session is found with the very value that was returned, as long as its expiry text is ahead of now. */
  lemma CreatedIsFound(rows: Rows, users: map<int, User>, userId: int, ttl: int, token: string, csrf: string, hash: string -> string,
                       created: Instant, now: Instant)
    requires TokenShaped(token) && ttl >= 0 && FourDigitYear(created + ttl) && FourDigitYear(now)
    ensures var (after, result) := Create(rows, users, userId, ttl, hash(token), csrf, created);
            result.Ok? ==>
              && result.value.expiresAt == created + ttl
              && (Accepted(Stamp(created + ttl), Stamp(now)) ==> Find(after, users, token, hash, now) == result)
              && (!Accepted(Stamp(created + ttl), Stamp(now)) ==> Find(after, users, token, hash, now) == Err(InvalidSession))
  {
    hide Stamp, ReadStamp, Purge, Clashes;
    StampReadsBack(created + ttl);
  }

  /** A purge keeps exactly the rows that a lookup at that instant would accept. */
  lemma PurgeExactly(rows: Rows, now: Instant, digest: string)
    ensures digest in Purge(rows, now) <==> digest in rows && Accepted(rows[digest].expires, Stamp(now))
    ensures digest in Purge(rows, now) ==> Purge(rows, now)[digest] == rows[digest]
  {
    if digest in rows {
      PurgeComplementsLookup(rows[digest].expires, Stamp(now));
    }
  }

  /** How a creation ends: only durations of up to thirty days, only for an active user, only with fresh tokens among the rows that are kept. */
  lemma CreateExactly(rows: Rows, users: map<int, User>, userId: int, ttl: int, digest: string, csrf: string, now: Instant)
    ensures var (after, r) := Create(rows, users, userId, ttl, digest, csrf, now);
            var proper := 0 < ttl <= 2_592_000 * SECOND;
            var active := userId in users && users[userId].active;
            && (r == Err(BadDuration) <==> !proper) && (r == Err(NoSuchUser) <==> proper && !active)
            && (!proper || !active ==> after == rows)
            && (proper && active ==>
                  && (r == Err(NotUnique) <==>
                        exists d :: d in rows && Accepted(rows[d].expires, Stamp(now)) && (d == digest || rows[d].csrf == csrf))
                  && (r == Err(NotUnique) ==> after == Purge(rows, now))
                  && (r != Err(NotUnique) ==>
                        && r == Ok(Session(userId, users[userId], csrf, now + ttl))
                        && after == Purge(rows, now)[digest := Row(userId, csrf, Stamp(now + ttl))]))
  {
    forall d { PurgeExactly(rows, now, d); }
    hide Stamp, Accepted, Purge;
  }

  /** When a token finds a session: it has a row, whose expiry text is readable and ahead of now, and its user is active. */
  lemma FoundExactly(rows: Rows, users: map<int, User>, token: string, hash: string -> string, now: Instant, session: Session)
    ensures Find(rows, users, token, hash, now) == Ok(session) <==>
              && token != "" && ByteLength(token) <= 256 && hash(token) in rows
              && var row := rows[hash(token)];
              && Less(Stamp(now), row.expires) && row.userId in users && users[row.userId].active
              && session.userId == row.userId && session.user == users[row.userId] && session.csrf == row.csrf
              && ReadStamp(row.expires) == Some(session.expiresAt)
  {
    hide Stamp, ReadStamp, Less;
  }

  // ---------- runs ----------

  datatype Op =
    | CreateOp(userId: int, ttl: int, token: string, csrf: string, now: Instant)
    | DeleteOp(token: string)

  function Apply(rows: Rows, users: map<int, User>, hash: string -> string, op: Op): Rows {
    match op
    case CreateOp(userId, ttl, token, csrf, now) => Create(rows, users, userId, ttl, hash(token), csrf, now).0
    case DeleteOp(token) => Delete(rows, token, hash)
  }

  function After(rows: Rows, users: map<int, User>, hash: string -> string, ops: seq<Op>): Rows {
    if ops == [] then rows else Apply(After(rows, users, hash, ops[..|ops| - 1]), users, hash, ops[|ops| - 1])
  }

  /** An operation that may end a session: a logout with its token, or a purge less than a second before its expiry. */
  predicate Spares(op: Op, digest: string, hash: string -> string, expires: Instant) {
    match op
    case CreateOp(_, _, _, _, now) => now + SECOND <= expires
    case DeleteOp(token) => !TokenShaped(token) || hash(token) != digest
  }

  lemma SparedByOne(rows: Rows, users: map<int, User>, hash: string -> string, op: Op, digest: string, expires: Instant)
    requires digest in rows && FourDigitYear(expires) && rows[digest].expires == Stamp(expires)
    requires Spares(op, digest, hash, expires)
    ensures digest in Apply(rows, users, hash, op) && Apply(rows, users, hash, op)[digest] == rows[digest]
  {
    if op.CreateOp? {
      EarlierYear(op.now, expires);
      ExpiryIsRightToTheSecond(expires, op.now);
      PurgeComplementsLookup(Stamp(expires), Stamp(op.now));
      hide Stamp, Less, FourDigitYear;
      assert digest in Purge(rows, op.now);
    }
  }

  lemma EarlierYear(s: Instant, t: Instant)
    requires s <= t && FourDigitYear(t)
    ensures FourDigitYear(s)
  {
    var dayS, dayT := WholeSecond(s) / DAY_SECONDS, WholeSecond(t) / DAY_SECONDS;
    assert dayS <= dayT;
    if dayS < dayT {
      DatesAscend(0, dayS, dayT);
    }
  }

  /** Whatever else is created, purged or deleted, a session keeps its row until its logout or its last second ... */
  lemma {:induction false} RowSurvives(rows: Rows, users: map<int, User>, hash: string -> string, ops: seq<Op>, digest: string, expires: Instant)
    requires digest in rows && FourDigitYear(expires) && rows[digest].expires == Stamp(expires)
    requires forall i :: 0 <= i < |ops| ==> Spares(ops[i], digest, hash, expires)
    ensures digest in After(rows, users, hash, ops) && After(rows, users, hash, ops)[digest] == rows[digest]
  {
    hide Apply, Stamp, FourDigitYear;
    if ops != [] {
      RowSurvives(rows, users, hash, ops[..|ops| - 1], digest, expires);
      SparedByOne(After(rows, users, hash, ops[..|ops| - 1]), users, hash, ops[|ops| - 1], digest, expires);
    }
  }

  /** ... so that its token finds it, with the value it was created with, at every moment a second or more before its expiry. */
  lemma SessionSurvives(rows: Rows, users: map<int, User>, userId: int, ttl: int, token: string, csrf: string, hash: string -> string,
                        created: Instant, ops: seq<Op>, now: Instant)
    requires TokenShaped(token) && ttl > 0 && FourDigitYear(created + ttl) && now + SECOND <= created + ttl
    requires forall i :: 0 <= i < |ops| ==> Spares(ops[i], hash(token), hash, created + ttl)
    ensures var (first, result) := Create(rows, users, userId, ttl, hash(token), csrf, created);
            result.Ok? ==> Find(After(first, users, hash, ops), users, token, hash, now) == result
  {
    hide Stamp, ReadStamp, FourDigitYear, Purge, Clashes, Accepted, Find;
    var (first, result) := Create(rows, users, userId, ttl, hash(token), csrf, created);
    var expires := created + ttl;
    EarlierYear(now, expires);
    ExpiryIsRightToTheSecond(expires, now);
    CreatedIsFound(rows, users, userId, ttl, token, csrf, hash, created, now);
    if result.Ok? {
      RowSurvives(first, users, hash, ops, hash(token), expires);
      FindLooksAtOneRow(first, After(first, users, hash, ops), users, token, hash, now);
    }
  }

  lemma FindLooksAtOneRow(a: Rows, b: Rows, users: map<int, User>, token: string, hash: string -> string, now: Instant)
    requires hash(token) in a && hash(token) in b && a[hash(token)] == b[hash(token)]
    ensures Find(a, users, token, hash, now) == Find(b, users, token, hash, now)
  {
    hide Stamp, ReadStamp, Accepted;
  }

  /** Where a row stands, only its expiry text and its user decide; a second past expiry its token is refused in every state. */
  lemma SessionEnds(rows: Rows, users: map<int, User>, token: string, hash: string -> string, expires: Instant, now: Instant)
    requires hash(token) in rows && FourDigitYear(expires) && FourDigitYear(now) && rows[hash(token)].expires == Stamp(expires)
    requires now >= expires + SECOND
    ensures Find(rows, users, token, hash, now) == Err(InvalidSession)
  {
    ExpiryIsRightToTheSecond(expires, now);
  }

  /** Logout refuses that token from then on and, digests being distinct, no other. */
  lemma LogoutIsLocal(rows: Rows, users: map<int, User>, token: string, other: string, hash: string -> string, now: Instant)
    requires forall a, b :: hash(a) == hash(b) ==> a == b
    ensures Find(Delete(rows, token, hash), users, token, hash, now) == Err(InvalidSession)
    ensures other != token ==> Find(Delete(rows, token, hash), users, other, hash, now) == Find(rows, users, other, hash, now)
  {
    hide Stamp, ReadStamp, Accepted;
    assert other != token ==> hash(other) != hash(token);
  }

  // ---------- the code ----------

  class SessionStore {
    var rows: Rows
    var users: map<int, User>
    const hash: string -> string

    constructor (users: map<int, User>, hash: string -> string)
      ensures rows == map[] && this.users == users && this.hash == hash
    {
      rows, this.users, this.hash := map[], users, hash;
    }

    /** The token and the CSRF token are drawn by the caller's random source. */
    method CreateSession(userId: int, ttl: int, token: string, csrf: string, now: Instant) returns (result: Result<Session>)
      modifies this`rows
      ensures (rows, result) == Create(old(rows), users, userId, ttl, hash(token), csrf, now)
    {
      if ttl <= 0 || ttl > MAXIMUM_TTL {
        return Err(BadDuration);
      }
      if userId !in users || !users[userId].active {
        return Err(NoSuchUser);
      }
      var tokenHash := hash(token);
      var expiresAt := now + ttl;
      rows := Purge(rows, now);
      if Clashes(rows, tokenHash, csrf) {
        return Err(NotUnique);
      }
      rows := rows[tokenHash := Row(userId, csrf, Stamp(expiresAt))];
      return Ok(Session(userId, users[userId], csrf, expiresAt));
    }

    method SessionByToken(token: string, now: Instant) returns (result: Result<Session>)
      ensures result == Find(rows, users, token, hash, now)
    {
      if token == "" || ByteLength(token) > MAXIMUM_TOKEN {
        return Err(InvalidSession);
      }
      var tokenHash := hash(token);
      if tokenHash !in rows {
        return Err(InvalidSession);
      }
      var row := rows[tokenHash];
      if !Less(Stamp(now), row.expires) || row.userId !in users || !users[row.userId].active {
        return Err(InvalidSession);
      }
      var expiresAt := ReadStamp(row.expires);
      if expiresAt.None? {
        return Err(BadExpiry);
      }
      return Ok(Session(row.userId, users[row.userId], row.csrf, expiresAt.value));
    }

    method DeleteSession(token: string)
      modifies this`rows
      ensures rows == Delete(old(rows), token, hash)
    {
      if token == "" || ByteLength(token) > MAXIMUM_TOKEN {
        return;
      }
      rows := rows - {hash(token)};
    }
  }
}
