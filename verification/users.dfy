/** Bot users: one row per messenger account, keyed by the messenger's user id,
    with an optional phone number. A user's id is its position in the table. */
module Users {
  import opened Wrappers
  import opened Text

  type UserId = nat

  datatype User = User(maxId: string, phone: Option<string>)

  datatype UserError = MissingMaxUserId

  /** No two rows share a messenger id. */
  predicate UniqueMaxIds(rows: seq<User>) {
    forall i, j | 0 <= i < j < |rows| :: rows[i].maxId != rows[j].maxId
  }

  /** `SELECT id FROM users WHERE max_id = ? LIMIT 1`: the first row with that id. */
  function FindByMaxId(rows: seq<User>, maxId: string): (r: Option<UserId>)
    ensures r.Some? ==> r.value < |rows| && rows[r.value].maxId == maxId
                        && forall j | 0 <= j < r.value :: rows[j].maxId != maxId
    ensures r.None? ==> forall j | 0 <= j < |rows| :: rows[j].maxId != maxId
    decreases |rows|
  {
    if |rows| == 0 then None
    else if rows[|rows| - 1].maxId == maxId && FindByMaxId(rows[..|rows| - 1], maxId).None? then
      Some(|rows| - 1)
    else
      FindByMaxId(rows[..|rows| - 1], maxId)
  }

  /** The first row carrying a messenger id is the one the lookup finds. */
  lemma FindIsFirst(rows: seq<User>, maxId: string, i: nat)
    requires i < |rows| && rows[i].maxId == maxId
    requires forall j | 0 <= j < i :: rows[j].maxId != maxId
    ensures FindByMaxId(rows, maxId) == Some(i)
  {
  }

  /** A JavaScript truthiness test on an optional string. */
  predicate Truthy(s: Option<string>) {
    s.Some? && s.value != ""
  }

  /** `ensureUser(maxUserId, { phone })`: a missing messenger id is an error; a known
      account keeps its id and takes the given phone when it is non-empty and
      differs; an unknown account gets a new row holding the phone as given. */
  function EnsureUser(rows: seq<User>, maxUserId: Option<string>, phone: Option<string>)
    : (r: Result<(seq<User>, UserId), UserError>)
    ensures r.Failure? <==> !Truthy(maxUserId)
    ensures r.Success? ==> var (rows', id) := r.value;
      id < |rows'| && rows'[id].maxId == maxUserId.value && |rows'| >= |rows|
      && (Truthy(phone) ==> rows'[id].phone == phone)
      && (forall j | 0 <= j < |rows| && j != id :: rows'[j] == rows[j])
    ensures r.Success? && FindByMaxId(rows, maxUserId.value).Some? ==>
      r.value.1 == FindByMaxId(rows, maxUserId.value).value && |r.value.0| == |rows|
    ensures r.Success? && FindByMaxId(rows, maxUserId.value).None? ==>
      r.value.0 == rows + [User(maxUserId.value, phone)] && r.value.1 == |rows|
    ensures r.Success? && UniqueMaxIds(rows) ==> UniqueMaxIds(r.value.0)
  {
    if !Truthy(maxUserId) then Failure(MissingMaxUserId)
    else
      var maxId := maxUserId.value;
      match FindByMaxId(rows, maxId)
      case Some(id) =>
        if Truthy(phone) && phone != rows[id].phone then
          Success((rows[id := rows[id].(phone := phone)], id))
        else
          Success((rows, id))
      case None =>
        Success((rows + [User(maxId, phone)], |rows|))
  }

  /** Calling `ensureUser` again for the same account returns the same id and adds
      no row. */
  lemma EnsureUserStable(rows: seq<User>, maxUserId: Option<string>, phone: Option<string>, phone2: Option<string>)
    requires EnsureUser(rows, maxUserId, phone).Success?
    ensures var (rows', id) := EnsureUser(rows, maxUserId, phone).value;
      EnsureUser(rows', maxUserId, phone2).Success?
      && EnsureUser(rows', maxUserId, phone2).value.1 == id
      && |EnsureUser(rows', maxUserId, phone2).value.0| == |rows'|
  {
  }

  /** The digits of a phone number as typed: `String(value).replace(/\D+/g, '')`. */
  function DigitsOf(s: string): (d: string)
    ensures forall i | 0 <= i < |d| :: IsDigit(d[i])
    ensures |d| <= |s|
    decreases |s|
  {
    if |s| == 0 then ""
    else (if IsDigit(s[0]) then [s[0]] else "") + DigitsOf(s[1..])
  }

  /** A Russian number in the form the bot stores: `+7` and ten digits. */
  predicate IsRussianNumber(p: string) {
    |p| == 12 && p[0] == '+' && p[1] == '7' && forall i | 2 <= i < 12 :: IsDigit(p[i])
  }

  /** `normalizePhone`: the national ten digits prefixed by `+7`, from eleven digits
      starting with 8 or 7 or from exactly ten digits; anything else is rejected.
      The branch for digit strings starting with `+` is kept as written although a
      digit string never starts with `+`. */
  function NormalizePhone(value: Option<string>): (r: Option<string>)
    ensures r.Some? ==> IsRussianNumber(r.value)
    ensures r.Some? <==> (Truthy(value) &&
      (|DigitsOf(value.value)| == 10
       || (|DigitsOf(value.value)| == 11 && DigitsOf(value.value)[0] in {'7', '8'})))
    ensures r.Some? ==> r.value[2..] == DigitsOf(value.value)[|DigitsOf(value.value)| - 10..]
  {
    if !Truthy(value) then None
    else
      var digits := DigitsOf(value.value);
      if |digits| == 11 && digits[0] == '8' then Some("+7" + digits[1..])
      else if |digits| == 11 && digits[0] == '7' then Some("+7" + digits[1..])
      else if |digits| == 10 then Some("+7" + digits)
      else if |digits| >= 11 && digits[0] == '+' then Some(digits)
      else None
  }

  lemma {:induction false} DigitsOfDigits(s: string)
    requires forall i | 0 <= i < |s| :: IsDigit(s[i])
    ensures DigitsOf(s) == s
    decreases |s|
  {
    if |s| > 0 {
      DigitsOfDigits(s[1..]);
      assert [s[0]] + s[1..] == s;
    }
  }

  /** A normalised number normalises to itself. */
  lemma NormalizePhoneIdempotent(value: Option<string>)
    requires NormalizePhone(value).Some?
    ensures NormalizePhone(NormalizePhone(value)) == NormalizePhone(value)
  {
    var p := NormalizePhone(value).value;
    assert p == [p[0]] + p[1..];
    DigitsOfDigits(p[1..]);
    assert DigitsOf(p) == p[1..];
    assert p[1..][1..] == p[2..];
  }

  /** `upsertUserContact(maxUserId, phone)`: when both are present and the phone
      normalises, the account (created if needed) gets the normalised number;
      otherwise nothing changes. */
  function UpsertUserContact(rows: seq<User>, maxUserId: Option<string>, phone: Option<string>)
    : (rows': seq<User>)
    ensures !Truthy(maxUserId) || NormalizePhone(phone).None? ==> rows' == rows
    ensures Truthy(maxUserId) && NormalizePhone(phone).Some? ==>
      var id := FindByMaxId(rows', maxUserId.value);
      id.Some? && rows'[id.value].phone == NormalizePhone(phone)
    ensures UniqueMaxIds(rows) ==> UniqueMaxIds(rows')
  {
    if !Truthy(maxUserId) || !Truthy(phone) then rows
    else
      match NormalizePhone(phone)
      case None => rows
      case Some(normalized) =>
        var (rows1, id) := EnsureUser(rows, maxUserId, None).value;
        var rows' := rows1[id := rows1[id].(phone := Some(normalized))];
        FindIsFirst(rows', maxUserId.value, id);
        rows'
  }

  /** `fetchUserContact(userId)`: the account row, when the id is present and known. */
  function FetchContact(rows: seq<User>, userId: Option<UserId>): (r: Option<User>)
    ensures r.Some? <==> userId.Some? && userId.value < |rows|
    ensures r.Some? ==> r.value == rows[userId.value]
  {
    if userId.Some? && userId.value < |rows| then Some(rows[userId.value]) else None
  }

  /** Does the account have a phone number (`Boolean(contact?.phone)`)? */
  predicate HasPhone(rows: seq<User>, userId: Option<UserId>) {
    var c := FetchContact(rows, userId);
    c.Some? && Truthy(c.value.phone)
  }

  /** On an incoming message with a shared contact the normalised number is written
      first and the message handler's `ensureUser` then writes the number as
      shared whenever the two differ, so the row holds the number as shared. */
  lemma SharedContactKeepsRawNumber(rows: seq<User>, maxId: string, tel: string)
    requires maxId != "" && tel != ""
    ensures var rows1 := UpsertUserContact(rows, Some(maxId), Some(tel));
      var r := EnsureUser(rows1, Some(maxId), Some(tel));
      r.Success? && r.value.0[r.value.1].phone == Some(tel)
  {
  }
}
