/** The activity log (server/src/models/Activity.js): the action enumeration,
    the pre-save hook that drops null and undefined detail entries, and the
    `Activity.log` static that records an activity or answers null, never
    throwing. */
module Activity {
  import opened Common

  datatype Action = Create | Update | Delete | View | Share | Login | Logout | Search

  function ActionName(a: Action): string {
    match a
    case Create => "create"
    case Update => "update"
    case Delete => "delete"
    case View => "view"
    case Share => "share"
    case Login => "login"
    case Logout => "logout"
    case Search => "search"
  }

  /** The schema's `enum` check on `action`. */
  function ParseAction(s: string): (r: Option<Action>)
    ensures r.Some? ==> ActionName(r.value) == s
    ensures r.None? ==> forall a :: ActionName(a) != s
  {
    if s == "create" then Some(Create)
    else if s == "update" then Some(Update)
    else if s == "delete" then Some(Delete)
    else if s == "view" then Some(View)
    else if s == "share" then Some(Share)
    else if s == "login" then Some(Login)
    else if s == "logout" then Some(Logout)
    else if s == "search" then Some(Search)
    else None
  }

  /** Every enumerated action is accepted as itself. */
  lemma ParseActionName(a: Action)
    ensures ParseAction(ActionName(a)) == Some(a)
  {
  }

  /** A `details` entry: JavaScript's undefined and null, or a value. */
  datatype DetailValue = Undefined | Null | Value(text: string)

  type Details = map<string, DetailValue>

  /** The details with every null or undefined entry removed. */
  function WithoutNulls(details: Details): Details {
    map k | k in details && details[k].Value? :: details[k]
  }

  /** The pre-save hook: walks the keys and deletes those whose value is
      undefined or null. */
  method CleanDetails(details: Details) returns (cleaned: Details)
    ensures cleaned == WithoutNulls(details)
  {
    cleaned := details;
    var keys := details.Keys;
    while keys != {}
      invariant keys <= details.Keys
      invariant forall k :: k in cleaned <==> k in details && (k in keys || details[k].Value?)
      invariant forall k :: k in cleaned ==> cleaned[k] == details[k]
      decreases keys
    {
      var k :| k in keys;
      if !cleaned[k].Value? {
        cleaned := cleaned - {k};
      }
      keys := keys - {k};
    }
  }

  /** Exactly the null and undefined keys go; every other key keeps its value. */
  lemma WithoutNullsSpec(details: Details, k: string)
    ensures k in WithoutNulls(details) <==> k in details && details[k] != Null && details[k] != Undefined
    ensures k in WithoutNulls(details) ==> WithoutNulls(details)[k] == details[k]
    ensures WithoutNulls(WithoutNulls(details)) == WithoutNulls(details)
  {
  }

  datatype ActivityData = ActivityData(
    user: Option<string>,
    document: Option<string>,
    action: string,
    details: Option<Details>,
    ipAddress: Option<string>,
    userAgent: Option<string>)

  datatype ActivityRecord = ActivityRecord(
    user: string,
    document: Option<string>,
    action: Action,
    details: Option<Details>,
    ipAddress: Option<string>,
    userAgent: Option<string>)

  /** What `Activity.log(data)` resolves to: schema validation (`user`
      required, `action` in the enumeration) runs first; a valid activity is
      saved after the hook cleaned its details, an invalid one yields null. */
  function Logged(data: ActivityData): (r: Option<ActivityRecord>)
    ensures r.Some? <==> data.user.Some? && data.user.value != "" && ParseAction(data.action).Some?
    ensures r.Some? ==> ActionName(r.value.action) == data.action && r.value.user == data.user.value
    ensures r.Some? ==> r.value.document == data.document
    ensures r.Some? && data.details.Some? ==>
      r.value.details.Some? && forall k :: k in r.value.details.value ==> r.value.details.value[k].Value?
    ensures r.Some? ==> r.value.details == if data.details.Some? then Some(WithoutNulls(data.details.value)) else None
    ensures r.Some? ==> r.value.ipAddress == data.ipAddress && r.value.userAgent == data.userAgent
  {
    match (data.user, ParseAction(data.action))
    case (Some(u), Some(a)) =>
      if u == "" then None
      else
        var details := match data.details
          case None => None
          case Some(d) => Some(WithoutNulls(d));
        Some(ActivityRecord(u, data.document, a, details, data.ipAddress, data.userAgent))
    case _ => None
  }

  /** The action names the controllers pass to `Activity.log`, apart from
      "login", which is one of the enumerated actions. */
  datatype ControllerAction =
    | CreateDocument | ListDocuments | ViewDocument | UpdateDocument | DeleteDocument
    | ShareDocument | CreateVersion | AddTag | RemoveTag | GenerateEmbeddings
    | Register | UpdateProfile | ChangePassword

  function ControllerActionName(a: ControllerAction): string {
    match a
    case CreateDocument => "create_document"
    case ListDocuments => "list_documents"
    case ViewDocument => "view_document"
    case UpdateDocument => "update_document"
    case DeleteDocument => "delete_document"
    case ShareDocument => "share_document"
    case CreateVersion => "create_version"
    case AddTag => "add_tag"
    case RemoveTag => "remove_tag"
    case GenerateEmbeddings => "generate_embeddings"
    case Register => "register"
    case UpdateProfile => "update_profile"
    case ChangePassword => "change_password"
  }

  /** None of these names passes the enum, so every such call to `log`
      resolves to null and records nothing. */
  lemma ControllerActionsRejected(a: ControllerAction, data: ActivityData)
    requires data.action == ControllerActionName(a)
    ensures Logged(data) == None
  {
    match a
    case CreateDocument =>
    case ListDocuments =>
    case ViewDocument =>
    case UpdateDocument =>
    case DeleteDocument =>
    case ShareDocument =>
    case CreateVersion =>
    case AddTag =>
    case RemoveTag =>
    case GenerateEmbeddings =>
    case Register =>
    case UpdateProfile =>
    case ChangePassword =>
  }

  /** `Activity.log` as the controllers call it with one of their own action
      names: the enum check fails and nothing is recorded. */
  method LogControllerAction(log: ActivityLog, user: string, document: Option<string>,
                             action: ControllerAction, details: Option<Details>)
    modifies log
    ensures log.records == old(log.records)
  {
    var data := ActivityData(Some(user), document, ControllerActionName(action), details, None, None);
    ControllerActionsRejected(action, data);
    var _ := log.Log(data);
  }

  class ActivityLog {
    var records: seq<ActivityRecord>

    constructor ()
      ensures records == []
    {
      records := [];
    }

    /** `Activity.log(data)`: catches every failure, so it never throws. */
    method Log(data: ActivityData) returns (r: Option<ActivityRecord>)
      modifies this
      ensures r == Logged(data)
      ensures records == old(records) + (if r.Some? then [r.value] else [])
    {
      var action := ParseAction(data.action);
      if data.user.None? || data.user.value == "" || action.None? {
        return None;
      }
      var details := None;
      if data.details.Some? {
        var cleaned := CleanDetails(data.details.value);
        details := Some(cleaned);
      }
      var record := ActivityRecord(data.user.value, data.document, action.value,
                                   details, data.ipAddress, data.userAgent);
      records := records + [record];
      r := Some(record);
    }
  }
}
