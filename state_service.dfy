/**
 * The user-state dispatcher (`StateHandler.process_state`): before a message reaches the
 * language-model pipeline, the sender's stored state decides whether the message passes
 * through, is handed to onboarding, or is answered with a fixed reply.
 */
module StateService {

  import opened Wrappers
  import opened Models

  /** The handler methods of `StateHandler`. */
  datatype Handler = HandleDefault | HandleBlocked | HandleRateLimited | HandleHasPendingMessage

  /** What `process_state` returns. The source returns the 2-tuple `(None, None)` for
   *  `PassThrough`, `(None, None, True)` for `Delegated` and `(text, options, False)` for
   *  `Canned`; the flag is kept in the last two as the source returns it. */
  datatype Outcome =
    | PassThrough
    | Delegated(continueFlag: bool)
    | Canned(text: string, options: Option<seq<string>>, continueFlag: bool)

  /** The outcome together with the users handed to the onboarding collaborator
   *  (`onboarding_client.process_state`), in call order. */
  datatype Dispatch = Dispatch(outcome: Outcome, onboarded: seq<User>)

  const DefaultText: string :=
    "There appears to have occurred an error. Please contact support (dev@ai.or.tz) for assistance."
  const BlockedText: string :=
    "Your account is currently blocked. Please contact support (dev@ai.or.tz) for assistance."
  const RateLimitedText: string :=
    "\U{1F6AB} You have reached your daily messaging limit, so Twiga \U{1F992} is quite sleepy from all of today's texting \U{1F971}. Let's talk more tomorrow!"
  const PendingMessageText: string :=
    "You have a pending message. Please wait for a response before sending a new message."

  /** The `state_handlers` dict built in `__init__`: three entries, never updated. */
  function StateHandlers(): (m: map<UserState, Handler>)
    ensures m.Keys == {Blocked, RateLimited, HasPendingMessage}
    ensures forall s :: s in m ==> m[s] != HandleDefault
  {
    map[Blocked := HandleBlocked, RateLimited := HandleRateLimited,
        HasPendingMessage := HandleHasPendingMessage]
  }

  /** `state_handlers.get(user_state, handle_default)`. */
  function HandlerFor(s: UserState): (h: Handler)
    ensures h == HandleDefault <==> s !in StateHandlers()
    ensures s == Blocked ==> h == HandleBlocked
    ensures s == RateLimited ==> h == HandleRateLimited
    ensures s == HasPendingMessage ==> h == HandleHasPendingMessage
  {
    var handlers := StateHandlers();
    if s in handlers then handlers[s] else HandleDefault
  }

  /** Running a handler: every handler ignores the user and the state it is given and
   *  returns a fixed, non-empty text with no options. */
  function Handle(h: Handler, user: User, s: UserState): (reply: (string, Option<seq<string>>))
    ensures |reply.0| > 0 && reply.1 == None
    ensures h == HandleDefault ==> reply.0 == DefaultText
    ensures h == HandleBlocked ==> reply.0 == BlockedText
    ensures h == HandleRateLimited ==> reply.0 == RateLimitedText
    ensures h == HandleHasPendingMessage ==> reply.0 == PendingMessageText
  {
    match h
    case HandleDefault => (DefaultText, None)
    case HandleBlocked => (BlockedText, None)
    case HandleRateLimited => (RateLimitedText, None)
    case HandleHasPendingMessage => (PendingMessageText, None)
  }

  /** `process_state(user)`. */
  function ProcessState(user: User): (d: Dispatch)
    // active: pass through, nothing is handed to onboarding
    ensures user.state == Active <==> d.outcome == PassThrough
    ensures user.state == Active ==> d.onboarded == []
    // new and onboarding: exactly one onboarding call, for this user
    ensures user.state in {New, Onboarding} <==> d.outcome.Delegated?
    ensures user.state in {New, Onboarding} ==> d.outcome.continueFlag && d.onboarded == [user]
    // every other state: a canned reply, chosen by the handler table
    ensures d.outcome.Canned? <==> user.state !in {Active, New, Onboarding}
    ensures d.outcome.Canned? ==> d.onboarded == [] && !d.outcome.continueFlag
    ensures d.outcome.Canned? ==> |d.outcome.text| > 0 && d.outcome.options == None
    ensures user.state == Blocked ==> d.outcome.text == BlockedText
    ensures user.state == RateLimited ==> d.outcome.text == RateLimitedText
    ensures user.state == HasPendingMessage ==> d.outcome.text == PendingMessageText
    ensures user.state.Unlisted? ==> d.outcome.text == DefaultText
  {
    var s := user.state;
    if s == Active then
      Dispatch(PassThrough, [])
    else if s == Onboarding || s == New then
      Dispatch(Delegated(true), [user])
    else
      var reply := Handle(HandlerFor(s), user, s);
      Dispatch(Canned(reply.0, reply.1, false), [])
  }

  /** A canned reply depends only on the state: two users in the same state get the same
   *  reply, whatever their other fields. */
  lemma CannedDependsOnlyOnState(u: User, v: User)
    requires u.state == v.state
    requires u.state !in {Active, New, Onboarding}
    ensures ProcessState(u).outcome == ProcessState(v).outcome
  {
  }
}
