/**
 * hf-backend/src/services/ai_chatbot_service.py: `AIChatbotService.chat`, which returns
 * the reply and the recognised action without performing it, and `execute_action`,
 * which performs an action through `TodoService`. As in module AppChatbot, the
 * language model is reduced to whether a key is configured and what the call answered.
 */
module ChatbotService {
  import opened Wrappers
  import opened Ids
  import opened Http
  import opened Json
  import opened TodoModel
  import opened Actions
  import TodoService

  /** The key the service uses: the argument unless it is missing or empty, else the `GEMINI_API_KEY` environment value. */
  function ApiKey(argument: Option<string>, environment: Option<string>): (k: Option<string>)
    ensures argument.Some? && argument.value != "" ==> k == argument
    ensures (argument.None? || argument.value == "") ==> k == environment
  {
    if argument.Some? && argument.value != "" then argument else environment
  }

  /** `self.model` is set exactly when the chosen key is truthy. */
  predicate Configured(key: Option<string>) {
    key.Some? && key.value != ""
  }

  /** The dictionary `chat` returns. */
  datatype ChatReply = ChatReply(response: string, action: Option<map<string, Value>>)

  const NotConfiguredReply: string :=
    "AI chatbot is not configured. Please set up your GEMINI_API_KEY in the environment variables."

  /**
   * `chat`: without a model, a fixed reply; when the model call raised, the apology
   * carrying its text; otherwise the reply shown to the user and the recognised action,
   * which is returned to the caller and not performed here.
   */
  function Chat(key: Option<string>, generated: Result<string, string>, parse: string -> Option<Value>)
    : (r: ChatReply)
    ensures !Configured(key) ==> r == ChatReply(NotConfiguredReply, None)
    ensures Configured(key) && generated.Err? ==> r == ChatReply(ErrorReplyPrefix + generated.error, None)
    ensures Configured(key) && generated.Ok? ==>
              && r.response == Extract(generated.value, parse).reply
              && r.action == Extract(generated.value, parse).action
    ensures r.action.Some? ==> KindOf(r.action.value).Some?
  {
    if !Configured(key) then ChatReply(NotConfiguredReply, None)
    else
      match generated
      case Err(e) => ChatReply(ErrorReplyPrefix + e, None)
      case Ok(text) =>
        var e := Extract(text, parse);
        ChatReply(e.reply, e.action)
  }

  /** A model reply with no '{' is passed on stripped, with no action. */
  lemma PlainReplyHasNoAction(key: Option<string>, text: string, parse: string -> Option<Value>)
    requires Configured(key) && '{' !in text
    ensures Chat(key, Ok(text), parse) == ChatReply(Text.Strip(text), None)
  {
    NoBraceNoAction(text, parse);
  }

  /**
   * The `TodoUpdate` the service's update branch builds from the action's top-level
   * title, description and completion entries: every field is passed explicitly, so
   * every field counts as set, a missing one as null.
   */
  function ServicePayload(action: map<string, Value>): (r: Result<TodoUpdate, Cause>)
    ensures r.Err? <==> OptionalText(GetOr(action, "title", Null)).Err? ||
                        OptionalText(GetOr(action, "description", Null)).Err? ||
                        OptionalFlag(GetOr(action, "is_completed", Null)).Err?
    ensures r.Ok? ==> r.value.title.Given? && r.value.description.Given? && r.value.completed.Given?
    ensures r.Ok? ==> r.value.title.value == (if "title" in action then OptionalText(action["title"]).value else None)
    ensures r.Ok? ==>
              r.value.description.value ==
                if "description" in action then OptionalText(action["description"]).value else None
    ensures r.Ok? ==>
              r.value.completed.value ==
                if "is_completed" in action then OptionalFlag(action["is_completed"]).value else None
    ensures r.Err? ==> r.error == InvalidValue
  {
    var title := OptionalText(GetOr(action, "title", Null));
    var description := OptionalText(GetOr(action, "description", Null));
    var completed := OptionalFlag(GetOr(action, "is_completed", Null));
    if title.Err? || description.Err? || completed.Err? then Err(InvalidValue)
    else Ok(TodoUpdate(Given(title.value), Given(description.value), Given(completed.value)))
  }

  /**
   * What `update_todo` then commits for such a payload: all three fields are replaced,
   * and the commit is refused unless the action gave both a title and a completion flag.
   */
  lemma ServiceUpdateReplacesEveryField(action: map<string, Value>, t: Todo)
    requires ServicePayload(action).Ok?
    ensures var u := ServicePayload(action).value;
            Commit(t, Patched(DraftOf(t), Dump(u)), t.updatedAt) ==
              if u.title.value.None? || u.completed.value.None? then None
              else Some(t.(title := u.title.value.value, description := u.description.value,
                           completed := u.completed.value.value))
  {
    UpdateSetsOnlyGivenFields(DraftOf(t), ServicePayload(action).value);
  }

  /**
   * An update action that omits the title or the completion flag never succeeds, and
   * one that omits the description clears it.
   */
  lemma PartialServiceUpdate(action: map<string, Value>, t: Todo)
    requires ServicePayload(action).Ok?
    ensures ("title" !in action || "is_completed" !in action) ==>
              Commit(t, Patched(DraftOf(t), Dump(ServicePayload(action).value)), t.updatedAt).None?
    ensures "description" !in action && Commit(t, Patched(DraftOf(t), Dump(ServicePayload(action).value)), t.updatedAt).Some? ==>
              Commit(t, Patched(DraftOf(t), Dump(ServicePayload(action).value)), t.updatedAt).value.description.None?
  {
    ServiceUpdateReplacesEveryField(action, t);
  }

  /**
   * `execute_action`: as `execute_todo_action` in app.py, but through `TodoService`, so
   * no branch stamps `updated_at`; an update validates its payload before its id is
   * parsed, and a delete reports `TodoService.delete_todo`'s answer as its success.
   */
  method ExecuteAction(table: TodoTable, action: map<string, Value>, user: Uuid, now: Time)
    returns (r: ActionResult)
    requires table.Valid() && table.clock <= now
    modifies table
    ensures table.Valid()
    ensures !r.success ==> table.rows == old(table.rows)
    ensures forall u :: u != user ==> OwnedBy(table.rows, u) == OwnedBy(old(table.rows), u)
    ensures KindOf(action).None? ==> r == Failure(Said(UnknownActionMessage))
    ensures KindOf(action) == Some(Add) ==>
              match CreatePayload(action)
              case Err(c) => r == Failure(ExecutionError(c))
              case Ok(c) =>
                var t := Todo(old(table.nextId), user, c.title, c.description, c.completed, now, now);
                r == Saved("Added", t) && table.rows == old(table.rows) + [t]
    ensures KindOf(action).Some? && KindOf(action) != Some(Add) && ReadId(action).NoId? ==>
              r == Failure(Said(RequiredIdMessage(KindOf(action).value)))
    ensures KindOf(action) == Some(Update) && !ReadId(action).NoId? && ServicePayload(action).Err? ==>
              r == Failure(ExecutionError(InvalidValue))
    ensures KindOf(action).Some? && KindOf(action) != Some(Add) && ReadId(action).BadId? &&
            (KindOf(action) == Some(Update) ==> ServicePayload(action).Ok?) ==>
              r == Failure(ExecutionError(MalformedUuid))
    ensures KindOf(action).Some? && KindOf(action) != Some(Add) && ReadId(action).IdOf? &&
            (KindOf(action) == Some(Update) ==> ServicePayload(action).Ok?) ==>
              var id := ReadId(action).id;
              match Lookup(old(table.rows), id, user)
              case None =>
                r == Failure(Said(TodoNotFoundMessage))
              case Some(t) =>
                && (KindOf(action) == Some(Update) ==>
                      var saved := Commit(t, Patched(DraftOf(t), Dump(ServicePayload(action).value)), t.updatedAt);
                      (saved.None? ==> r == Failure(ExecutionError(NotNullViolation))) &&
                      (saved.Some? ==> r == Saved("Updated", saved.value) &&
                                       table.rows == Replace(old(table.rows), saved.value)))
                && (KindOf(action) == Some(Delete) ==>
                      r == ActionResult(true, Said(DeletedMessage), None) && table.rows == Remove(old(table.rows), id))
                && (KindOf(action) == Some(Toggle) ==>
                      var toggled := t.(completed := !t.completed);
                      r == Toggled(toggled) && table.rows == Replace(old(table.rows), toggled))
  {
    var kind := KindOf(action);
    if kind.None? {
      return Failure(Said(UnknownActionMessage));
    }
    if kind == Some(Add) {
      var payload := CreatePayload(action);
      if payload.Err? {
        return Failure(ExecutionError(payload.error));
      }
      var t := TodoService.CreateTodo(table, payload.value, user, now);
      return Saved("Added", t);
    }
    var id := ReadId(action);
    if id.NoId? {
      return Failure(Said(RequiredIdMessage(kind.value)));
    }
    if kind == Some(Update) {
      var payload := ServicePayload(action);
      if payload.Err? {
        return Failure(ExecutionError(payload.error));
      }
      if id.BadId? {
        return Failure(ExecutionError(MalformedUuid));
      }
      var outcome := TodoService.UpdateTodo(table, id.id, payload.value, user);
      if outcome.Err? {
        return Failure(ExecutionError(outcome.error));
      }
      if outcome.value.None? {
        return Failure(Said(TodoNotFoundMessage));
      }
      return Saved("Updated", outcome.value.value);
    }
    if id.BadId? {
      return Failure(ExecutionError(MalformedUuid));
    }
    if kind == Some(Delete) {
      var ok := TodoService.DeleteTodo(table, id.id, user);
      return ActionResult(ok, Said(if ok then DeletedMessage else TodoNotFoundMessage), None);
    }
    var toggled := TodoService.ToggleTodoCompletion(table, id.id, user);
    if toggled.None? {
      return Failure(Said(TodoNotFoundMessage));
    }
    return Toggled(toggled.value);
  }
}
