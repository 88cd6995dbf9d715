/**
 * The data-access functions over an in-memory store. Each function of the source opens a
 * transaction, does one unit of work and commits; on an exception it rolls back and raises a
 * typed error. Here a failed call returns `Err` and leaves every table as it was, which is
 * what the rollback guarantees. `fault` stands for a failure of the database itself during
 * the call, up to and including the commit (a lost connection, a failed query or a failed
 * commit), which the code cannot see coming. Wherever up to the commit it happens, the effect
 * is the same: the typed error and no change to any table. A failure of the `refresh` that
 * follows a successful commit is not modelled.
 */
module Database {

  import opened Wrappers
  import opened Json
  import opened Models
  import opened Lookups

  /** The exceptions the data-access functions raise. `OperationFailed` is a plain
   *  `Exception`; `NoSuchColumn` is the `AttributeError` of `getattr(Chunk, key)`. */
  datatype DbError =
    | UserDatabaseError
    | UserQueryError
    | UserUpdateError
    | OperationFailed
    | NoSuchColumn(key: string)

  // ---------------------------------------------------------------------------------------
  // Row predicates of the `where` clauses

  function HasWaId(waId: string): User -> bool { (u: User) => u.waId == waId }
  function IsClass(subject: string, grade: string): Class -> bool
  {
    (c: Class) => c.subject == subject && c.grade == grade
  }
  function IsLink(teacherId: nat, classId: nat): TeacherClass -> bool
  {
    (tc: TeacherClass) => tc.teacherId == teacherId && tc.classId == classId
  }
  function OfUser(userId: nat): Message -> bool { (m: Message) => m.userId == userId }

  /** No two users share a wa_id. */
  ghost predicate UniqueWaIds(users: seq<User>)
  {
    forall i, j :: 0 <= i < |users| && 0 <= j < |users| && users[i].waId == users[j].waId ==> i == j
  }

  /** No teacher-class link is stored twice. */
  ghost predicate DistinctLinks(links: seq<TeacherClass>)
  {
    forall i, j :: 0 <= i < |links| && 0 <= j < |links| && links[i] == links[j] ==> i == j
  }

  // ---------------------------------------------------------------------------------------
  // Read-only queries

  /** `get_user_by_waid(wa_id)`: a failing query and a wa_id shared by two users both raise
   *  `UserQueryError`. */
  function UserByWaId(users: seq<User>, waId: string, fault: bool): (r: Result<Option<User>, DbError>)
    ensures r.Ok? && r.value.Some? ==> r.value.value in users && r.value.value.waId == waId
    ensures r == Ok(None) <==> !fault && forall i :: 0 <= i < |users| ==> users[i].waId != waId
    ensures r.Err? ==> r.error == UserQueryError
    ensures r.Err? <==> fault ||
                        exists i, j :: 0 <= i < j < |users| && users[i].waId == waId && users[j].waId == waId
    ensures UniqueWaIds(users) && !fault ==> r.Ok?
  {
    if fault then Err(UserQueryError)
    else match Find(users, HasWaId(waId))
    case Absent => Ok(None)
    case Unique(u) => Ok(Some(u))
    case Multiple => Err(UserQueryError)
  }

  /** `get_user_message_history(user_id, limit)`: the newest `limit` messages of the user,
   *  returned oldest first, or `None` when there are none. A negative limit is refused by
   *  the database, like a failing query. */
  function MessageHistory(messages: seq<Message>, userId: nat, fault: bool, limit: int := 10)
    : (r: Result<Option<seq<Message>>, DbError>)
    ensures r.Err? <==> fault || limit < 0
    ensures r.Err? ==> r.error == OperationFailed
    ensures r == Ok(None) <==> !fault && (limit == 0 || (limit > 0 && OwnMessages(messages, userId) == []))
    ensures r.Ok? && r.value.Some? ==> r.value.value != []
    ensures r.Ok? && r.value.Some? && limit <= |OwnMessages(messages, userId)| ==>
              r.value.value == OwnMessages(messages, userId)[|OwnMessages(messages, userId)| - limit..]
    ensures r.Ok? && r.value.Some? && limit > |OwnMessages(messages, userId)| ==>
              r.value.value == OwnMessages(messages, userId)
    ensures r.Ok? && r.value.Some? ==>
              forall m :: m in r.value.value ==> m in messages && m.userId == userId
  {
    if fault || limit < 0 then Err(OperationFailed)
    else
      var own := OwnMessages(messages, userId);
      var newestFirst := Take(Reverse(own), limit);
      NewestReversed(own, limit);
      if newestFirst == [] then Ok(None)
      else
        var history := Reverse(newestFirst);
        assert forall m :: m in history ==> m in own by {
          if limit <= |own| {
            SuffixMembers(own, |own| - limit);
          }
        }
        Ok(Some(history))
  }

  /** `select(Message).where(Message.user_id == user_id)`: the rows of `messages` written by
   *  or to the user `userId`, in table order. */
  function OwnMessages(messages: seq<Message>, userId: nat): (r: seq<Message>)
    ensures forall m :: m in r <==> m in messages && m.userId == userId
  {
    Filter(messages, OfUser(userId))
  }


  // ---------------------------------------------------------------------------------------
  // `vector_search`: decoding the `where` dict into filters

  /** A filter on a chunk column: membership (`column.in_(values)`) or equality. */
  datatype ColumnFilter = In(key: string, values: seq<Json>) | Eq(key: string, value: Json)

  /** Whether a chunk, given by its column values, passes a filter. */
  predicate Accepts(f: ColumnFilter, chunk: map<string, Json>)
  {
    f.key in chunk && match f
                      case In(_, values) => chunk[f.key] in values
                      case Eq(_, value) => chunk[f.key] == value
  }

  /** The filter one `where` entry decodes to, as the loop body decides it. */
  ghost predicate Decodes(entry: (string, Json), f: ColumnFilter)
  {
    var (key, value) := entry;
    && f.key == key
    && (f.In? <==> value.JArr? && |value.items| > 1)
    && (f.In? ==> f.values == value.items)
    && (value.JArr? && |value.items| == 1 ==> f == Eq(key, value.items[0]))
    && (!(value.JArr? && |value.items| >= 1) ==> f == Eq(key, value))
  }

  /** The decoding loop of `vector_search`: one filter per entry, in order; a key that is
   *  not a column of `Chunk` raises at `getattr`. */
  method DecodeWhere(filterWhere: seq<(string, Json)>, columns: set<string>)
    returns (r: Result<seq<ColumnFilter>, DbError>)
    ensures r.Ok? <==> forall j :: 0 <= j < |filterWhere| ==> filterWhere[j].0 in columns
    ensures r.Ok? ==> |r.value| == |filterWhere|
    ensures r.Ok? ==> forall j :: 0 <= j < |filterWhere| ==> Decodes(filterWhere[j], r.value[j])
    ensures r.Err? ==> r.error.NoSuchColumn? && r.error.key !in columns
    ensures r.Err? ==> exists j :: 0 <= j < |filterWhere| && filterWhere[j].0 == r.error.key
                                   && forall m :: 0 <= m < j ==> filterWhere[m].0 in columns
  {
    var filters: seq<ColumnFilter> := [];
    for i := 0 to |filterWhere|
      invariant |filters| == i
      invariant forall j :: 0 <= j < i ==> filterWhere[j].0 in columns
      invariant forall j :: 0 <= j < i ==> Decodes(filterWhere[j], filters[j])
    {
      var (key, value) := filterWhere[i];
      if key !in columns {
        return Err(NoSuchColumn(key));
      }
      if value.JArr? && |value.items| > 1 {
        filters := filters + [In(key, value.items)];
      } else if value.JArr? && |value.items| == 1 {
        filters := filters + [Eq(key, value.items[0])];
      } else {
        filters := filters + [Eq(key, value)];
      }
    }
    return Ok(filters);
  }

  /** A non-empty list value selects exactly the chunks whose column holds one of its items,
   *  whichever of the two filter forms it decodes to. */
  lemma ListValueMeansMembership(entry: (string, Json), f: ColumnFilter, chunk: map<string, Json>)
    requires Decodes(entry, f) && entry.1.JArr? && |entry.1.items| >= 1
    ensures Accepts(f, chunk) <==> entry.0 in chunk && chunk[entry.0] in entry.1.items
  {
    if |entry.1.items| == 1 {
      assert f == Eq(entry.0, entry.1.items[0]);
      assert entry.1.items == [entry.1.items[0]];
    }
  }

  /** An empty list is not read as "no value allowed": it decodes to equality with the empty
   *  list itself. */
  lemma EmptyListMeansEquality(key: string, f: ColumnFilter, chunk: map<string, Json>)
    requires Decodes((key, JArr([])), f)
    ensures Accepts(f, chunk) <==> key in chunk && chunk[key] == JArr([])
  {
  }

  // ---------------------------------------------------------------------------------------
  // The tables and the writing operations

  class Store {
    var users: seq<User>
    var classes: seq<Class>
    var teacherClasses: seq<TeacherClass>
    var messages: seq<Message>
    /** The primary key the database gives the next user it inserts. */
    var nextUserId: nat

    /** User ids are distinct and below the next id to be given out. */
    ghost predicate Valid()
      reads this
    {
      && (forall i :: 0 <= i < |users| ==> users[i].id < nextUserId)
      && (forall i, j :: 0 <= i < |users| && 0 <= j < |users| && users[i].id == users[j].id ==> i == j)
    }

    /** A store holding only the seeded classes. */
    constructor (seeded: seq<Class>)
      ensures Valid()
      ensures users == [] && classes == seeded && teacherClasses == [] && messages == []
    {
      users, classes, teacherClasses, messages := [], seeded, [], [];
      nextUserId := 0;
    }

    /** `get_or_create_user(wa_id, name)`. */
    method GetOrCreateUser(waId: string, fault: bool, name: Option<string> := None)
      returns (r: Result<User, DbError>)
      requires Valid()
      modifies this
      ensures Valid()
      ensures classes == old(classes) && teacherClasses == old(teacherClasses) && messages == old(messages)
      ensures fault ==> r == Err(UserDatabaseError) && users == old(users) && nextUserId == old(nextUserId)
      ensures !fault ==>
              match Find(old(users), HasWaId(waId))
              case Unique(u) => r == Ok(u) && users == old(users) && nextUserId == old(nextUserId)
              case Multiple => r == Err(UserDatabaseError) && users == old(users) && nextUserId == old(nextUserId)
              case Absent =>
                && r == Ok(User(old(nextUserId), waId, name, New, Teacher))
                && users == old(users) + [r.value] && nextUserId == old(nextUserId) + 1
      ensures UniqueWaIds(old(users)) ==> UniqueWaIds(users)
    {
      if fault {
        return Err(UserDatabaseError);
      }
      match Find(users, HasWaId(waId))
      case Unique(u) =>
        return Ok(u);
      case Multiple =>
        return Err(UserDatabaseError);
      case Absent =>
        var created := User(nextUserId, waId, name, New, Teacher);
        users := users + [created];
        nextUserId := nextUserId + 1;
        return Ok(created);
    }

    /** `add_teacher_class(user, subject, grade)`. */
    method AddTeacherClass(user: User, subject: string, grade: string, fault: bool)
      returns (r: Result<Class, DbError>)
      requires Valid()
      modifies this
      ensures Valid()
      ensures users == old(users) && classes == old(classes) && messages == old(messages)
      ensures nextUserId == old(nextUserId)
      // a failing database, no such class, or an ambiguous one: an error and no new link
      ensures fault || !Find(classes, IsClass(subject, grade)).Unique? ==>
                r == Err(UserUpdateError) && teacherClasses == old(teacherClasses)
      ensures !fault && Find(classes, IsClass(subject, grade)).Unique? ==>
                match Find(old(teacherClasses), IsLink(user.id, Find(classes, IsClass(subject, grade)).value.id))
                case Unique(_) => r == Ok(Find(classes, IsClass(subject, grade)).value)
                                  && teacherClasses == old(teacherClasses)
                case Multiple => r == Err(UserUpdateError) && teacherClasses == old(teacherClasses)
                case Absent =>
                  && r == Ok(Find(classes, IsClass(subject, grade)).value)
                  && teacherClasses == old(teacherClasses)
                                       + [TeacherClass(user.id, Find(classes, IsClass(subject, grade)).value.id)]
      // on success the link is there; the table never gains a duplicate
      ensures r.Ok? ==> TeacherClass(user.id, r.value.id) in teacherClasses
      ensures DistinctLinks(old(teacherClasses)) ==> DistinctLinks(teacherClasses)
    {
      var found := Find(classes, IsClass(subject, grade));
      if fault || !found.Unique? {
        return Err(UserUpdateError);
      }
      var c := found.value;
      var link := Find(teacherClasses, IsLink(user.id, c.id));
      match link
      case Unique(_) =>
        return Ok(c);
      case Multiple =>
        return Err(UserUpdateError);
      case Absent =>
        var added := TeacherClass(user.id, c.id);
        assert forall i :: 0 <= i < |teacherClasses| ==> teacherClasses[i] != added;
        teacherClasses := teacherClasses + [added];
        return Ok(c);
    }

    /** `update_user(user)`: `None` is refused before the store is touched; otherwise the
     *  stored row with the same id is replaced. */
    method UpdateUser(user: Option<User>, fault: bool) returns (r: Result<User, DbError>)
      requires Valid()
      modifies this
      ensures Valid()
      ensures classes == old(classes) && teacherClasses == old(teacherClasses) && messages == old(messages)
      ensures nextUserId == old(nextUserId)
      ensures user.None? ==> r == Err(UserUpdateError) && users == old(users)
      ensures r.Err? ==> r.error == UserUpdateError && users == old(users)
      ensures r.Ok? <==> user.Some? && !fault && exists i :: 0 <= i < |old(users)| && old(users)[i].id == user.value.id
      ensures r.Ok? ==> r.value == user.value && |users| == |old(users)|
      ensures r.Ok? ==> forall i :: 0 <= i < |users| ==>
                users[i] == if old(users)[i].id == user.value.id then user.value else old(users)[i]
    {
      if user.None? {
        return Err(UserUpdateError);
      }
      var u := user.value;
      var at := IndexOfId(users, u.id);
      if at.None? || fault {
        return Err(UserUpdateError);
      }
      users := users[at.value := u];
      return Ok(u);
    }

    /** `create_new_messages(messages)`: all of the batch is stored, in order, or none. */
    method CreateNewMessages(batch: seq<Message>, fault: bool) returns (r: Result<seq<Message>, DbError>)
      requires Valid()
      modifies this
      ensures Valid()
      ensures users == old(users) && classes == old(classes) && teacherClasses == old(teacherClasses)
      ensures nextUserId == old(nextUserId)
      ensures batch == [] ==> r == Ok([]) && messages == old(messages)
      ensures batch != [] && fault ==> r == Err(OperationFailed) && messages == old(messages)
      ensures batch != [] && !fault ==> r == Ok(batch) && messages == old(messages) + batch
    {
      if batch == [] {
        return Ok([]);
      }
      if fault {
        return Err(OperationFailed);
      }
      messages := messages + batch;
      return Ok(batch);
    }

    /** `create_new_message(message)`: a batch of one, unwrapped. */
    method CreateNewMessage(message: Message, fault: bool) returns (r: Result<Message, DbError>)
      requires Valid()
      modifies this
      ensures Valid()
      ensures users == old(users) && classes == old(classes) && teacherClasses == old(teacherClasses)
      ensures nextUserId == old(nextUserId)
      ensures !fault ==> r == Ok(message) && messages == old(messages) + [message]
      ensures fault ==> r == Err(OperationFailed) && messages == old(messages)
    {
      var stored := CreateNewMessages([message], fault);
      if stored.Err? {
        return Err(OperationFailed);
      }
      return Ok(stored.value[0]);
    }
  }

  /** The position of the user with primary key `id`. */
  function IndexOfId(users: seq<User>, id: nat): (r: Option<nat>)
    ensures r.Some? ==> r.value < |users| && users[r.value].id == id
    ensures r.None? <==> forall i :: 0 <= i < |users| ==> users[i].id != id
  {
    if users == [] then None
    else if users[|users| - 1].id == id then Some(|users| - 1)
    else IndexOfId(users[..|users| - 1], id)
  }

  /** Once `get_or_create_user` has succeeded for a wa_id, a second call with the same wa_id
   *  returns the same user unless the database fails then, and the table has grown at most
   *  by that user. */
  method GetOrCreateTwice(store: Store, waId: string, name: Option<string>, fault1: bool, fault2: bool)
    returns (first: Result<User, DbError>, second: Result<User, DbError>)
    requires store.Valid()
    modifies store
    ensures first.Ok? && !fault2 ==> second == first
    ensures fault2 ==> second == Err(UserDatabaseError)
    ensures first.Ok? ==> store.users == old(store.users) || store.users == old(store.users) + [first.value]
  {
    first := store.GetOrCreateUser(waId, fault1, name);
    if first.Ok? && Find(old(store.users), HasWaId(waId)).Absent? {
      FoundAfterInsert(old(store.users), first.value);
    }
    second := store.GetOrCreateUser(waId, fault2, name);
  }

  /** A message just stored is the newest of its user's messages; every other user's
   *  messages are as they were. */
  lemma StoredMessageIsNewest(messages: seq<Message>, m: Message)
    ensures OwnMessages(messages + [m], m.userId) == OwnMessages(messages, m.userId) + [m]
    ensures forall u :: u != m.userId ==> OwnMessages(messages + [m], u) == OwnMessages(messages, u)
  {
    FilterAppend(messages, [m], OfUser(m.userId));
    assert Filter([m], OfUser(m.userId)) == [m];
    forall u | u != m.userId ensures OwnMessages(messages + [m], u) == OwnMessages(messages, u) {
      FilterAppend(messages, [m], OfUser(u));
      assert Filter([m], OfUser(u)) == [];
    }
  }

  /** After `create_new_message(m)`, a history query with a positive limit ends with `m`. */
  lemma HistoryEndsWithStored(messages: seq<Message>, m: Message, limit: int)
    requires limit > 0
    ensures MessageHistory(messages + [m], m.userId, false, limit).Ok?
    ensures MessageHistory(messages + [m], m.userId, false, limit).value.Some?
    ensures var h := MessageHistory(messages + [m], m.userId, false, limit).value.value;
            |h| > 0 && h[|h| - 1] == m
  {
    StoredMessageIsNewest(messages, m);
  }

  /** After the insert of a user whose wa_id no stored user had, a lookup by that wa_id
   *  finds exactly the new user. */
  lemma FoundAfterInsert(before: seq<User>, u: User)
    requires Find(before, HasWaId(u.waId)).Absent?
    ensures Find(before + [u], HasWaId(u.waId)) == Unique(u)
  {
    var after := before + [u];
    assert after[|before|] == u;
    assert forall i :: 0 <= i < |before| ==> after[i] == before[i];
  }
}
