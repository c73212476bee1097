/**
 * The signer request: how `onMethodCall` reads its loosely typed argument
 * map, and the launch intent it builds from the result.
 */
module Request {
  import opened Wrappers
  import opened Channel

  /** A value in the Dart argument map; only strings are read. */
  datatype ArgValue = ArgString(s: string) | ArgOther

  /** `call.arguments`: absent, something other than a HashMap, or a map. */
  datatype Arguments =
    | NoArguments
    | NotAMap
    | ArgMap(entries: map<string, ArgValue>)

  /** The six fields of a signer request, every one defaulted to "". */
  datatype SignRequest = SignRequest(
    requestType: string,
    currentUser: string,
    pubKey: string,
    id: string,
    uriData: string,
    permissions: string)

  /** `paramsMap[key] as? String ?: ""`. */
  function StringOrEmpty(m: map<string, ArgValue>, key: string): (v: string)
  {
    if key in m && m[key].ArgString? then m[key].s else ""
  }

  /** `v` is what the source reads for `key`: the string given, or "" when it is missing or not a string. */
  predicate Defaulted(m: map<string, ArgValue>, key: string, v: string)
  {
    (key in m && m[key].ArgString? ==> v == m[key].s)
    && (key !in m || !m[key].ArgString? ==> v == "")
  }

  /** The arguments as a map, or None when they are null or not a map. */
  function ParamsMap(a: Arguments): (r: Option<map<string, ArgValue>>)
    ensures r.Some? <==> a.ArgMap?
    ensures r.Some? ==> r.value == a.entries
  {
    if a.ArgMap? then Some(a.entries) else None
  }

  /**
   * Argument validation for the signer call: fails exactly when the
   * argument container is missing or not a map; otherwise every field is
   * the string supplied, or "" when it is missing or of another type.
   */
  function ParseSignRequest(a: Arguments): (r: Option<SignRequest>)
    ensures r.None? <==> !a.ArgMap?
    ensures r.Some? ==>
      && Defaulted(a.entries, KeyType, r.value.requestType)
      && Defaulted(a.entries, KeyCurrentUser, r.value.currentUser)
      && Defaulted(a.entries, KeyPubKey, r.value.pubKey)
      && Defaulted(a.entries, KeyId, r.value.id)
      && Defaulted(a.entries, KeyUriData, r.value.uriData)
      && Defaulted(a.entries, KeyPermissions, r.value.permissions)
  {
    match ParamsMap(a)
    case None => None
    case Some(m) =>
      Some(SignRequest(
        StringOrEmpty(m, KeyType),
        StringOrEmpty(m, KeyCurrentUser),
        StringOrEmpty(m, KeyPubKey),
        StringOrEmpty(m, KeyId),
        StringOrEmpty(m, KeyUriData),
        StringOrEmpty(m, KeyPermissions)))
  }

  /** An intent extra: a string, an int, or anything else (which reads back as null). */
  datatype Extra = StrExtra(str: string) | IntExtra(n: int) | OtherExtra

  /** `hasExtra(key)` is `key in extras`. */
  type Extras = map<string, Extra>

  /** `getStringExtra(key)`: the string stored under `key`, or null. */
  function StringExtra(extras: Extras, key: string): (r: Option<string>)
    ensures r.Some? <==> key in extras && extras[key].StrExtra?
    ensures r.Some? ==> r.value == extras[key].str
  {
    if key in extras && extras[key].StrExtra? then Some(extras[key].str) else None
  }

  const ActionView := "android.intent.action.VIEW"

  /** The intent handed to `startActivityForResult`. */
  datatype Intent = Intent(action: string, data: string, extras: Extras)

  /**
   * The launch intent for `req` under request code `code`: a VIEW of
   * `nostrsigner:<uriData>` carrying every other field, plus the code.
   */
  function LaunchIntent(req: SignRequest, code: int): (i: Intent)
    ensures i.action == ActionView
    ensures i.data == SignerMethod + ":" + req.uriData
    ensures i.extras.Keys == {KeyType, KeyCurrentUser, KeyPubKey, KeyId, KeyPermissions, KeyRequestCode}
    ensures KeyUriData !in i.extras
    ensures i.extras[KeyRequestCode] == IntExtra(code)
    ensures StringExtra(i.extras, KeyType) == Some(req.requestType)
    ensures StringExtra(i.extras, KeyCurrentUser) == Some(req.currentUser)
    ensures StringExtra(i.extras, KeyPubKey) == Some(req.pubKey)
    ensures StringExtra(i.extras, KeyId) == Some(req.id)
    ensures StringExtra(i.extras, KeyPermissions) == Some(req.permissions)
  {
    Intent(ActionView, SignerMethod + ":" + req.uriData,
      map[KeyType := StrExtra(req.requestType),
          KeyCurrentUser := StrExtra(req.currentUser),
          KeyPubKey := StrExtra(req.pubKey),
          KeyId := StrExtra(req.id),
          KeyPermissions := StrExtra(req.permissions),
          KeyRequestCode := IntExtra(code)])
  }
}
