/**
 * The todo actions a chatbot reply can carry, shared by hf-backend/app.py
 * (`chat_with_bot`, `execute_todo_action`) and hf-backend's `AIChatbotService`: finding
 * the action object in the reply text, reading its fields, and the shape of the result
 * dictionary. The JSON parser is the parameter `parse` (see module Json).
 */
module Actions {
  import opened Wrappers
  import opened Text
  import opened Ids
  import opened Http
  import opened Json
  import opened TodoModel

  datatype ActionKind = Add | Update | Delete | Toggle

  /** The `action` entry of a parsed action, compared against "add", "update", "delete" and "toggle". */
  function KindOf(action: map<string, Value>): (k: Option<ActionKind>)
    ensures k == Some(Add) <==> Get(action, "action") == Some(Str("add"))
    ensures k == Some(Update) <==> Get(action, "action") == Some(Str("update"))
    ensures k == Some(Delete) <==> Get(action, "action") == Some(Str("delete"))
    ensures k == Some(Toggle) <==> Get(action, "action") == Some(Str("toggle"))
  {
    match Get(action, "action")
    case Some(Str(s)) =>
      if s == "add" then Some(Add)
      else if s == "update" then Some(Update)
      else if s == "delete" then Some(Delete)
      else if s == "toggle" then Some(Toggle)
      else None
    case _ => None
  }

  // ------------------------------------------------------------------------------
  // Finding the action in the reply

  /** The reply as shown to the user, and the action object when one was recognised. */
  datatype Extraction = Extraction(reply: string, action: Option<map<string, Value>>)

  /**
   * The extraction block of `chat`/`chat_with_bot`: strip the reply, take the text from
   * its first '{' to its last '}', and when that parses to an object naming a known
   * action, answer the object and the stripped text before the '{'; otherwise no action
   * and the whole stripped reply.
   */
  function Extract(text: string, parse: string -> Option<Value>): (e: Extraction)
    ensures e.action.None? ==> e.reply == Strip(text)
    ensures e.action.Some? ==> KindOf(e.action.value).Some?
    ensures IsPrefix(e.reply, Strip(text))
    ensures e.action.Some? ==> '{' !in e.reply
    ensures e.action.Some? <==> Recognisable(Strip(text), parse)
    ensures e.action.Some? ==> Recognised(Strip(text), parse, e.action.value)
  {
    var t := Strip(text);
    var e := Split(t, parse);
    if e.action.Some? then
      StripOfPrefixIsPrefix(t, Find(t, '{'));
      e
    else e
  }

  /**
   * The text from the first '{' of `t` to its last '}' parses to the object `f`, and
   * `f` names a known action.
   */
  predicate Recognised(t: string, parse: string -> Option<Value>, f: map<string, Value>) {
    && 0 <= Find(t, '{') < RFind(t, '}') + 1
    && parse(t[Find(t, '{')..RFind(t, '}') + 1]) == Some(Object(f))
    && KindOf(f).Some?
  }

  /** The text from the first '{' of `t` to its last '}' parses to an object naming a known action. */
  predicate Recognisable(t: string, parse: string -> Option<Value>) {
    && 0 <= Find(t, '{') < RFind(t, '}') + 1
    && parse(t[Find(t, '{')..RFind(t, '}') + 1]).Some?
    && parse(t[Find(t, '{')..RFind(t, '}') + 1]).value.Object?
    && KindOf(parse(t[Find(t, '{')..RFind(t, '}') + 1]).value.fields).Some?
  }

  /** The same block once the reply is stripped. */
  function Split(t: string, parse: string -> Option<Value>): (e: Extraction)
    ensures e.action.None? ==> e.reply == t
    ensures e.action.Some? <==> Recognisable(t, parse)
    ensures e.action.Some? ==>
              && Recognised(t, parse, e.action.value)
              && e.reply == Strip(t[..Find(t, '{')])
              && '{' !in e.reply
  {
    var start := Find(t, '{');
    var end := RFind(t, '}') + 1;
    if 0 <= start < end && parse(t[start..end]).Some? && parse(t[start..end]).value.Object? &&
       KindOf(parse(t[start..end]).value.fields).Some?
    then
      StripIsPart(t[..start]);
      Extraction(Strip(t[..start]), Some(parse(t[start..end]).value.fields))
    else Extraction(t, None)
  }

  /** Every character of a stripped string comes from the string. */
  lemma StripIsPart(s: string)
    ensures forall c :: c in Strip(s) ==> c in s
  {
    var r := Strip(s);
    var a := StripStart(s);
    forall c | c in r ensures c in s {
      var k :| 0 <= k < |r| && r[k] == c;
      assert s[a + k] == c;
    }
  }

  /**
   * An extracted action is the object spelled by the outermost braces of the stripped
   * reply: from a '{' with none before it to a '}' with none after it.
   */
  lemma ExtractedActionSpansOuterBraces(text: string, parse: string -> Option<Value>)
    requires Extract(text, parse).action.Some?
    ensures var t := Strip(text);
            var e := Extract(text, parse);
            exists i: nat, j: nat :: i < j <= |t| && t[i] == '{' && '{' !in t[..i] && '}' !in t[j..] &&
              t[j - 1] == '}' && parse(t[i..j]) == Some(Object(e.action.value)) && e.reply == Strip(t[..i])
  {
    SplitSpansOuterBraces(Strip(text), parse);
  }

  lemma SplitSpansOuterBraces(t: string, parse: string -> Option<Value>)
    requires Split(t, parse).action.Some?
    ensures var e := Split(t, parse);
            exists i: nat, j: nat :: i < j <= |t| && t[i] == '{' && '{' !in t[..i] && '}' !in t[j..] &&
              t[j - 1] == '}' && parse(t[i..j]) == Some(Object(e.action.value)) && e.reply == Strip(t[..i])
  {
    var e := Split(t, parse);
    var i: nat := Find(t, '{');
    var j: nat := RFind(t, '}') + 1;
    assert i < j <= |t| && t[i] == '{' && '{' !in t[..i] && '}' !in t[j..] &&
      t[j - 1] == '}' && parse(t[i..j]) == Some(Object(e.action.value)) && e.reply == Strip(t[..i]);
  }

  /** A reply without any '{' never carries an action and is shown stripped. */
  lemma NoBraceNoAction(text: string, parse: string -> Option<Value>)
    requires '{' !in text
    ensures Extract(text, parse) == Extraction(Strip(text), None)
  {
    StripIsPart(text);
    assert Find(Strip(text), '{') == -1;
  }

  /** In prose followed by an object, the braces found are the object's. */
  lemma BracesOfProseThenObject(prose: string, json: string)
    requires '{' !in prose
    requires |json| >= 2 && json[0] == '{' && json[|json| - 1] == '}'
    ensures var t := prose + json; Find(t, '{') == |prose| && RFind(t, '}') == |t| - 1
    ensures (prose + json)[..|prose|] == prose && (prose + json)[|prose|..|prose + json|] == json
  {
    var t := prose + json;
    assert t[..|prose|] == prose;
    assert t[|prose|..|t|] == json;
    FindAfterPrefix(prose, json, '{');
    RFindAtEnd(t, '}');
  }

  /**
   * Prose followed by an action object, as the system prompt asks for, is split into
   * the stripped prose and the object.
   */
  lemma ProseThenAction(prose: string, json: string, f: map<string, Value>, parse: string -> Option<Value>)
    requires prose != [] ==> !IsSpace(prose[0])
    requires '{' !in prose
    requires |json| >= 2 && json[0] == '{' && json[|json| - 1] == '}'
    requires parse(json) == Some(Object(f)) && KindOf(f).Some?
    ensures Extract(prose + json, parse) == Extraction(Strip(prose), Some(f))
  {
    var t := prose + json;
    assert t[0] == if prose == [] then '{' else prose[0];
    assert t[|t| - 1] == '}';
    StripKeepsTrimmed(t);
    SplitProseThenObject(prose, json, f, parse);
  }

  lemma SplitProseThenObject(prose: string, json: string, f: map<string, Value>, parse: string -> Option<Value>)
    requires '{' !in prose
    requires |json| >= 2 && json[0] == '{' && json[|json| - 1] == '}'
    requires parse(json) == Some(Object(f)) && KindOf(f).Some?
    ensures Split(prose + json, parse) == Extraction(Strip(prose), Some(f))
  {
    BracesOfProseThenObject(prose, json);
  }

  /** The object a model writes to ask for a toggle of todo 7. */
  const ToggleSeven: string := "{\"action\": \"toggle\", \"id\": \"7\"}"

  /** A reply that ends in a toggle request for todo 7. */
  lemma ToggleReplyExample(parse: string -> Option<Value>)
    requires parse(ToggleSeven) == Some(Object(map["action" := Str("toggle"), "id" := Str("7")]))
    ensures Extract("Done! " + ToggleSeven, parse) ==
            Extraction("Done!", Some(map["action" := Str("toggle"), "id" := Str("7")]))
  {
    ToggleSevenIsToggle();
    StripOfDone();
    ProseThenAction("Done! ", ToggleSeven, map["action" := Str("toggle"), "id" := Str("7")], parse);
  }

  lemma ToggleSevenIsToggle()
    ensures KindOf(map["action" := Str("toggle"), "id" := Str("7")]) == Some(Toggle)
  {
    assert Get(map["action" := Str("toggle"), "id" := Str("7")], "action") == Some(Str("toggle"));
  }

  lemma StripOfDone()
    ensures Strip("Done! ") == "Done!"
  {
    assert LStrip("Done! ") == "Done! ";
    assert "Done! "[..5] == "Done!";
    assert RStrip("Done! ") == RStrip("Done!");
    assert RStrip("Done!") == "Done!";
  }

  // ------------------------------------------------------------------------------
  // Reading the action's fields

  /** A value for an `Optional[str]` field: null, a string, or a validation failure. */
  function OptionalText(v: Value): (r: Result<Option<string>, Cause>)
    ensures r == Ok(None) <==> v.Null?
    ensures v.Str? <==> r.Ok? && r.value.Some?
    ensures v.Str? ==> r.value.value == v.s
    ensures r.Err? ==> r.error == InvalidValue
  {
    match v
    case Null => Ok(None)
    case Str(s) => Ok(Some(s))
    case _ => Err(InvalidValue)
  }

  /** A value for an `Optional[bool]` field. */
  function OptionalFlag(v: Value): (r: Result<Option<bool>, Cause>)
    ensures r == Ok(None) <==> v.Null?
    ensures v.Bool? <==> r.Ok? && r.value.Some?
    ensures v.Bool? ==> r.value.value == v.b
    ensures r.Err? ==> r.error == InvalidValue
  {
    match v
    case Null => Ok(None)
    case Bool(b) => Ok(Some(b))
    case _ => Err(InvalidValue)
  }

  const Untitled: string := "Untitled"

  /**
   * The add branch's `TodoCreate` payload: the title defaults to "Untitled", the
   * description to null and the completion flag to false; the payload is refused when a
   * given value has the wrong type or the result breaks the create constraints.
   */
  function CreatePayload(action: map<string, Value>): (r: Result<TodoCreate, Cause>)
    ensures r.Ok? <==>
              && ("title" !in action || action["title"].Str?)
              && ("description" !in action || action["description"].Null? || action["description"].Str?)
              && ("is_completed" !in action || action["is_completed"].Bool?)
              && ValidCreate(TodoCreate(
                   if "title" in action then action["title"].s else Untitled,
                   if "description" in action && action["description"].Str? then Some(action["description"].s) else None,
                   "is_completed" in action && action["is_completed"] == Bool(true)))
    ensures r.Ok? ==> ValidCreate(r.value)
    ensures r.Ok? ==> "title" !in action ==> r.value.title == Untitled
    ensures r.Ok? ==> "title" in action ==> action["title"] == Str(r.value.title)
    ensures r.Ok? ==> r.value.description == (if "description" in action && action["description"].Str?
                                             then Some(action["description"].s) else None)
    ensures r.Ok? ==> r.value.completed == ("is_completed" in action && action["is_completed"] == Bool(true))
    ensures "title" in action && !action["title"].Str? ==> r == Err(InvalidValue)
    ensures r.Err? ==> r.error == InvalidValue
  {
    var title := GetOr(action, "title", Str(Untitled));
    var description := OptionalText(GetOr(action, "description", Null));
    var completed := GetOr(action, "is_completed", Bool(false));
    if !title.Str? || description.Err? || !completed.Bool? then Err(InvalidValue)
    else
      var c := TodoCreate(title.s, description.value, completed.b);
      if ValidCreate(c) then Ok(c) else Err(InvalidValue)
  }

  /** An add action with no fields but its kind creates an open, untitled todo. */
  lemma BareAddIsUntitled()
    ensures CreatePayload(map["action" := Str("add")]) == Ok(TodoCreate(Untitled, None, false))
  {
  }

  /** The `id` entry as the handlers see it: missing or falsy, not a UUID, or a UUID. */
  datatype IdField = NoId | BadId | IdOf(id: Uuid)

  /** How the update, delete and toggle branches read the `id` entry and parse it as a UUID. */
  function ReadId(action: map<string, Value>): (r: IdField)
    ensures r.NoId? <==> "id" !in action || !Truthy(action["id"])
    ensures r.IdOf? ==> "id" in action && action["id"].Str? && ParseUuid(action["id"].s) == Some(r.id)
    ensures r.BadId? <==> "id" in action && Truthy(action["id"]) &&
                          !(action["id"].Str? && ParseUuid(action["id"].s).Some?)
  {
    match Get(action, "id")
    case None => NoId
    case Some(v) =>
      if !Truthy(v) then NoId
      else if v.Str? && ParseUuid(v.s).Some? then IdOf(ParseUuid(v.s).value)
      else BadId
  }

  /** An action naming a todo by the text of its id names exactly that todo. */
  lemma ReadIdOfIdText(action: map<string, Value>, id: Uuid)
    requires "id" in action && action["id"] == Str(UuidText(id))
    ensures ReadId(action) == IdOf(id)
  {
    UuidRoundTrip(id);
  }

  // ------------------------------------------------------------------------------
  // The result dictionary

  /**
   * The "message" entry: a fixed or composed text, or `f"Error executing action: {e}"`
   * for a caught exception, whose text is abstracted to its cause.
   */
  datatype Message = Said(text: string) | ExecutionError(fault: Cause)

  /** The "todo" entry: add and update report the description, toggle does not. */
  datatype TodoSummary =
    | Full(id: string, title: string, description: Option<string>, completed: bool)
    | Brief(id: string, title: string, completed: bool)

  datatype ActionResult = ActionResult(success: bool, message: Message, todo: Option<TodoSummary>)

  function Failure(m: Message): ActionResult {
    ActionResult(false, m, None)
  }

  const TodoNotFoundMessage: string := "Todo not found"
  const DeletedMessage: string := "Todo deleted successfully"
  const UnknownActionMessage: string := "Unknown action type"
  const ErrorReplyPrefix: string := "Sorry, I encountered an error: "

  function RequiredIdMessage(k: ActionKind): string {
    "Todo ID required for " +
      match k
      case Add => "add"
      case Update => "update"
      case Delete => "delete"
      case Toggle => "toggle"
  }

  function FullSummary(t: Todo): TodoSummary {
    Full(UuidText(t.id), t.title, t.description, t.completed)
  }

  function BriefSummary(t: Todo): TodoSummary {
    Brief(UuidText(t.id), t.title, t.completed)
  }

  /** The success result of an add or an update of `t`. */
  function Saved(verb: string, t: Todo): ActionResult {
    ActionResult(true, Said(verb + " todo: " + t.title), Some(FullSummary(t)))
  }

  /** The success result of a toggle that left `t`: "Completed: …" or "Reopened: …". */
  function Toggled(t: Todo): ActionResult {
    ActionResult(true, Said((if t.completed then "Completed: " else "Reopened: ") + t.title), Some(BriefSummary(t)))
  }
}
