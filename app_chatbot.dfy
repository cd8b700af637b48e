/**
 * The chatbot of hf-backend/app.py: `execute_todo_action`, which performs an action
 * object directly on the todo table, and `chat_with_bot`, which asks the language model
 * for a reply, extracts an action from it and performs it. The model is not modelled:
 * whether a key is configured and what `generate_content` answered (its text, or the
 * text of the exception it raised) are parameters.
 */
module AppChatbot {
  import opened Wrappers
  import opened Text
  import opened Ids
  import opened Http
  import opened Json
  import opened TodoModel
  import opened Actions

  /** Python's `key in v` where `v` is a list or a string: an equal element, or a substring. */
  predicate Mentions(v: Value, key: string)
    requires v.Array? || v.Str?
  {
    if v.Array? then Str(key) in v.items else IsSubstring(key, v.s)
  }

  /** One of the three fields the update branch tests for occurs in the list or string `v`. */
  predicate MentionsAField(v: Value)
    requires v.Array? || v.Str?
  {
    Mentions(v, "title") || Mentions(v, "description") || Mentions(v, "is_completed")
  }

  /**
   * What the update branch's membership tests and subscripts make of the `updates`
   * entry (an empty object when absent): the new values to assign, keyed by field. An
   * object gives its entries. On a list or a string the tests are element and substring
   * tests: when no field occurs in it nothing is assigned, and when one does, the
   * subscript that follows raises a `TypeError`. On null, a boolean or a number the
   * first test itself raises a `TypeError`.
   */
  function UpdatesOf(action: map<string, Value>): (r: Result<map<string, Value>, Cause>)
    ensures "updates" !in action ==> r == Ok(map[])
    ensures "updates" in action && action["updates"].Object? ==> r == Ok(action["updates"].fields)
    ensures "updates" in action && (action["updates"].Array? || action["updates"].Str?) ==>
              (r.Ok? <==> !MentionsAField(action["updates"])) && (r.Ok? ==> r.value == map[])
    ensures "updates" in action && (action["updates"].Null? || action["updates"].Bool? || action["updates"].Number?) ==>
              r.Err?
    ensures r.Err? ==> r.error == InvalidValue
  {
    var v := GetOr(action, "updates", Object(map[]));
    if v.Object? then Ok(v.fields)
    else if v.Array? || v.Str? then
      if MentionsAField(v) then Err(InvalidValue) else Ok(map[])
    else Err(InvalidValue)
  }

  /**
   * The three assignments of the update branch: each field named in `updates` takes the
   * value given there (null included) and the others keep theirs. A value of the wrong
   * type is treated as a failure (see README, "Left out").
   */
  function ApplyUpdates(d: Draft, updates: map<string, Value>): (r: Result<Draft, Cause>)
    ensures r.Ok? <==> ("title" in updates ==> OptionalText(updates["title"]).Ok?) &&
                       ("description" in updates ==> OptionalText(updates["description"]).Ok?) &&
                       ("is_completed" in updates ==> OptionalFlag(updates["is_completed"]).Ok?)
    ensures r.Ok? ==> r.value.title == if "title" in updates then OptionalText(updates["title"]).value else d.title
    ensures r.Ok? ==>
              r.value.description ==
                if "description" in updates then OptionalText(updates["description"]).value else d.description
    ensures r.Ok? ==>
              r.value.completed ==
                if "is_completed" in updates then OptionalFlag(updates["is_completed"]).value else d.completed
    ensures r.Err? ==> r.error == InvalidValue
  {
    var title := if "title" in updates then OptionalText(updates["title"]) else Ok(d.title);
    var description := if "description" in updates then OptionalText(updates["description"]) else Ok(d.description);
    var completed := if "is_completed" in updates then OptionalFlag(updates["is_completed"]) else Ok(d.completed);
    if title.Err? || description.Err? || completed.Err? then Err(InvalidValue)
    else Ok(Draft(title.value, description.value, completed.value))
  }

  /**
   * The update branch once the row `t` is found: apply the nested `updates`, stamp
   * `updated_at` with `now` and commit; a nulled title or completion flag is refused at
   * commit.
   */
  function UpdateOutcome(t: Todo, action: map<string, Value>, now: Time): (r: Result<Todo, Cause>)
    ensures r.Ok? ==> r.value.id == t.id && r.value.owner == t.owner && r.value.createdAt == t.createdAt
    ensures r.Ok? ==> r.value.updatedAt == now
    ensures UpdatesOf(action).Ok? && ApplyUpdates(DraftOf(t), UpdatesOf(action).value).Ok? ==>
              var d := ApplyUpdates(DraftOf(t), UpdatesOf(action).value).value;
              (r.Ok? <==> d.title.Some? && d.completed.Some?) && (r.Ok? ==> DraftOf(r.value) == d)
    ensures r.Err? && (UpdatesOf(action).Err? || ApplyUpdates(DraftOf(t), UpdatesOf(action).value).Err?) ==>
              r.error == InvalidValue
  {
    match UpdatesOf(action)
    case Err(c) => Err(c)
    case Ok(updates) =>
      match ApplyUpdates(DraftOf(t), updates)
      case Err(c) => Err(c)
      case Ok(d) =>
        match Commit(t, d, now)
        case None => Err(NotNullViolation)
        case Some(saved) => Ok(saved)
  }

  /**
   * The system prompt asks for the new values at the top level of the object, but the
   * update branch reads only the nested `updates`: an object shaped as the prompt asks
   * changes nothing but `updated_at`.
   */
  lemma PromptShapedUpdateOnlyStamps(t: Todo, action: map<string, Value>, now: Time)
    requires "updates" !in action
    ensures UpdateOutcome(t, action, now) == Ok(t.(updatedAt := now))
  {
  }

  /**
   * A list or a string as `updates` that none of the three field names occurs in passes
   * the membership tests without assigning anything: only `updated_at` changes.
   */
  lemma UnmentioningUpdatesOnlyStamp(t: Todo, action: map<string, Value>, now: Time)
    requires "updates" in action && (action["updates"].Array? || action["updates"].Str?)
    requires !MentionsAField(action["updates"])
    ensures UpdateOutcome(t, action, now) == Ok(t.(updatedAt := now))
  {
  }

  /** A string as `updates` that contains "title" fails at the subscript. */
  lemma TitleTextUpdatesFail(t: Todo, action: map<string, Value>, now: Time)
    requires "updates" in action && action["updates"] == Str("new title")
    ensures UpdateOutcome(t, action, now) == Err(InvalidValue)
  {
    assert IsPrefix("title", "new title"[4..]);
  }

  /**
   * What `execute_todo_action` does with `action` for `user` at `now`: `rows0` and
   * `nextId0` are the table before, `rows1` the rows after and `r` the result. An action
   * of unknown kind fails; an add validates its payload and appends a row; the other
   * kinds need a truthy `id` that parses as a UUID and names a row of the caller's, then
   * update, delete or toggle that row. Every failure leaves the rows as they were, and no
   * other user's rows ever change.
   */
  ghost predicate Executed(action: map<string, Value>, user: Uuid, now: Time, rows0: seq<Todo>, nextId0: Uuid,
                           rows1: seq<Todo>, r: ActionResult)
  {
    && (!r.success ==> rows1 == rows0)
    && (forall u :: u != user ==> OwnedBy(rows1, u) == OwnedBy(rows0, u))
    && (KindOf(action).None? ==> r == Failure(Said(UnknownActionMessage)))
    && (KindOf(action) == Some(Add) ==>
        match CreatePayload(action)
        case Err(c) => r == Failure(ExecutionError(c))
        case Ok(c) =>
          var t := Todo(nextId0, user, c.title, c.description, c.completed, now, now);
          r == Saved("Added", t) && rows1 == rows0 + [t])
    && (KindOf(action).Some? && KindOf(action) != Some(Add) ==>
        match ReadId(action)
        case NoId => r == Failure(Said(RequiredIdMessage(KindOf(action).value)))
        case BadId => r == Failure(ExecutionError(MalformedUuid))
        case IdOf(id) =>
          match Lookup(rows0, id, user)
          case None => r == Failure(Said(TodoNotFoundMessage))
          case Some(t) =>
            && (KindOf(action) == Some(Update) ==>
                  match UpdateOutcome(t, action, now)
                  case Err(c) => r == Failure(ExecutionError(c))
                  case Ok(saved) => r == Saved("Updated", saved) && rows1 == Replace(rows0, saved))
            && (KindOf(action) == Some(Delete) ==>
                  r == ActionResult(true, Said(DeletedMessage), None) && rows1 == Remove(rows0, id))
            && (KindOf(action) == Some(Toggle) ==>
                  var toggled := t.(completed := !t.completed, updatedAt := now);
                  r == Toggled(toggled) && rows1 == Replace(rows0, toggled)))
  }

  /**
   * `execute_todo_action`: performs the action on the table as `Executed` describes,
   * keeping the table valid.
   */
  method ExecuteTodoAction(table: TodoTable, action: map<string, Value>, user: Uuid, now: Time)
    returns (r: ActionResult)
    requires table.Valid() && table.clock <= now
    modifies table
    ensures table.Valid()
    ensures Executed(action, user, now, old(table.rows), old(table.nextId), table.rows, r)
  {
    var kind := KindOf(action);
    if kind.None? {
      return Failure(Said(UnknownActionMessage));
    }
    ghost var before := table.rows;
    if kind == Some(Add) {
      var payload := CreatePayload(action);
      if payload.Err? {
        return Failure(ExecutionError(payload.error));
      }
      var t := table.Add(user, payload.value, now);
      forall u | u != user ensures OwnedBy(table.rows, u) == OwnedBy(before, u) {
        OwnedByAppend(before, t, u);
      }
      return Saved("Added", t);
    }
    var id := ReadId(action);
    if id.NoId? {
      return Failure(Said(RequiredIdMessage(kind.value)));
    }
    if id.BadId? {
      return Failure(ExecutionError(MalformedUuid));
    }
    var found := Lookup(table.rows, id.id, user);
    if found.None? {
      return Failure(Said(TodoNotFoundMessage));
    }
    var t := found.value;
    LookupOwnsId(before, id.id, user);
    var i :| 0 <= i < |table.rows| && table.rows[i] == t;
    if kind == Some(Update) {
      var outcome := UpdateOutcome(t, action, now);
      if outcome.Err? {
        return Failure(ExecutionError(outcome.error));
      }
      table.Tick(now);
      table.Save(outcome.value);
      forall u | u != user ensures OwnedBy(table.rows, u) == OwnedBy(before, u) {
        OwnedByReplaceOther(before, outcome.value, u);
      }
      return Saved("Updated", outcome.value);
    } else if kind == Some(Delete) {
      table.Delete(i);
      forall u | u != user ensures OwnedBy(table.rows, u) == OwnedBy(before, u) {
        OwnedByRemoveOther(before, id.id, user, u);
      }
      return ActionResult(true, Said(DeletedMessage), None);
    } else {
      var toggled := t.(completed := !t.completed, updatedAt := now);
      table.Tick(now);
      table.Save(toggled);
      forall u | u != user ensures OwnedBy(table.rows, u) == OwnedBy(before, u) {
        OwnedByReplaceOther(before, toggled, u);
      }
      return Toggled(toggled);
    }
  }

  /** The body `chat_with_bot` answers. */
  datatype ChatResponse = ChatResponse(
    response: string,
    action: Option<map<string, Value>>,
    actionResult: Option<ActionResult>)

  const NotConfiguredReply: string :=
    "AI chatbot is not configured. Please set GEMINI_API_KEY in the Hugging Face Space secrets."

  /**
   * `chat_with_bot`: without a (non-empty) key, a fixed reply and nothing done; when the
   * model call raised, the apology carrying its text; otherwise the extracted reply,
   * and when an action was recognised, that action and the result of performing it.
   */
  method ChatWithBot(table: TodoTable, user: Uuid, apiKey: Option<string>, generated: Result<string, string>,
                     parse: string -> Option<Value>, now: Time)
    returns (r: ChatResponse)
    requires table.Valid() && table.clock <= now
    modifies table
    ensures table.Valid()
    ensures (apiKey.None? || apiKey.value == "") ==> r == ChatResponse(NotConfiguredReply, None, None)
    ensures apiKey.Some? && apiKey.value != "" && generated.Err? ==>
              r == ChatResponse(ErrorReplyPrefix + generated.error, None, None)
    ensures apiKey.Some? && apiKey.value != "" && generated.Ok? ==>
              var e := Extract(generated.value, parse);
              && r.response == e.reply && r.action == e.action && (r.actionResult.Some? <==> e.action.Some?)
              && (e.action.Some? ==>
                    Executed(e.action.value, user, now, old(table.rows), old(table.nextId), table.rows,
                             r.actionResult.value))
    ensures r.actionResult.None? || !r.actionResult.value.success ==> table.rows == old(table.rows)
    ensures forall u :: u != user ==> OwnedBy(table.rows, u) == OwnedBy(old(table.rows), u)
  {
    if apiKey.None? || apiKey.value == "" {
      return ChatResponse(NotConfiguredReply, None, None);
    }
    if generated.Err? {
      return ChatResponse(ErrorReplyPrefix + generated.error, None, None);
    }
    var e := Extract(generated.value, parse);
    if e.action.None? {
      return ChatResponse(e.reply, None, None);
    }
    var result := ExecuteTodoAction(table, e.action.value, user, now);
    return ChatResponse(e.reply, e.action, Some(result));
  }
}
