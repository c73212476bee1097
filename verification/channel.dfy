/**
 * Values exchanged over the method channel, the outcomes a Flutter result
 * callback can receive, and the names the plugin shares with the signer app.
 */
module Channel {
  import opened Wrappers

  /** A Kotlin `HashMap<String, String?>`: string keys to nullable strings. */
  type Fields = map<string, Option<string>>

  /** What a `success(...)` call carries back to Dart. */
  datatype Value =
    | Null
    | FieldMap(fields: Fields)
    | Bool(b: bool)
    | Text(text: string)

  /**
   * One call on a `MethodChannel.Result`. The plugin always passes `null` as
   * error details, so an error is its code and its message.
   */
  datatype Reply =
    | Success(value: Value)
    | Error(code: string, message: string)
    | NotImplemented

  /** Identity of one result callback: one per incoming method call. */
  type SinkId = nat

  /** One outcome posted to the main looper for the callback `sink`. */
  datatype Delivery = Delivery(sink: SinkId, reply: Reply)

  // Method names
  const SignerMethod := "nostrsigner"
  const IsAppInstalledMethod := "isAppInstalled"
  const PlatformVersionMethod := "getPlatformVersion"

  // Error codes and messages
  const InvalidArguments := "INVALID_ARGUMENTS"
  const NullParamsMessage := "Parameters map is null"
  const PackageNameMessage := "Package name is required"
  const ActivityError := "ACTIVITY_ERROR"
  const LaunchFailedPrefix := "Failed to start external app: "
  const ActivityDetached := "ACTIVITY_DETACHED"
  const DetachedMessage := "Activity was detached before request completed"

  /** The error every outstanding request receives when the activity goes away. */
  const DetachedReply := Error(ActivityDetached, DetachedMessage)

  // Argument and intent-extra keys shared with the signer app
  const KeyType := "type"
  const KeyCurrentUser := "current_user"
  const KeyPubKey := "pubKey"
  const KeyId := "id"
  const KeyUriData := "uri_data"
  const KeyPermissions := "permissions"
  const KeySignature := "signature"
  const KeyEvent := "event"
  const KeyRequestCode := "REQUEST_CODE"
  const KeyPackageName := "packageName"

  /** The signer app's package, used as the content provider authority prefix. */
  const AmberPackageName := "com.greenart7c3.nostrsigner"

  /** Android's `Activity.RESULT_OK`. */
  const ResultOk := -1
}
