/** Choosing the Cloudinary account to talk to, and reading the answer of an upload, as in
    the photo app's `cloudinary.ts`. The build-time environment values are parameters. */
module Cloudinary {
  import opened Strings

  const MissingEnvMessage: string :=
    "Missing VITE_CLOUDINARY_CLOUD_NAME or VITE_CLOUDINARY_UPLOAD_PRESET. Add them to .env or set per-project in Settings."
  const UploadFailedMessage: string := "Failed to upload photo."
  const InvalidResponseMessage: string := "Invalid response from Cloudinary."
  const ParseFailedMessage: string := "Failed to parse upload response."
  const NetworkErrorMessage: string := "Network error during upload."
  const AbortedMessage: string := "Upload aborted."

  /** A pair of optional account settings: the environment's, or a project's overrides. */
  datatype Settings = Settings(cloudName: Option<string>, uploadPreset: Option<string>)

  datatype Config = Config(cloudName: string, uploadPreset: string)

  /** Present and not blank once trimmed. */
  predicate Usable(v: Option<string>) {
    v.Some? && !IsBlank(v.value)
  }

  /** Present and non-empty, the way `!value` tests it. */
  predicate Truthy(v: Option<string>) {
    v.Some? && v.value != []
  }

  /** Overrides are used only when both of them are usable. */
  predicate UsesOverrides(overrides: Option<Settings>) {
    overrides.Some? && Usable(overrides.value.cloudName) && Usable(overrides.value.uploadPreset)
  }

  /** `getCloudinaryConfig`: usable overrides, trimmed; else the environment values as they are,
      or an error when either is missing or empty. */
  function CloudinaryConfig(overrides: Option<Settings>, env: Settings): (r: Result<Config>)
    ensures UsesOverrides(overrides) ==>
      r == Ok(Config(Trim(overrides.value.cloudName.value), Trim(overrides.value.uploadPreset.value)))
    ensures !UsesOverrides(overrides) ==>
      if Truthy(env.cloudName) && Truthy(env.uploadPreset)
      then r == Ok(Config(env.cloudName.value, env.uploadPreset.value))
      else r == Err(MissingEnvMessage)
  {
    if UsesOverrides(overrides) then
      Ok(Config(Trim(overrides.value.cloudName.value), Trim(overrides.value.uploadPreset.value)))
    else if !Truthy(env.cloudName) || !Truthy(env.uploadPreset) then Err(MissingEnvMessage)
    else Ok(Config(env.cloudName.value, env.uploadPreset.value))
  }

  /** The chosen account's values are never blank: overrides are trimmed non-blank values and
      the environment's are non-empty. */
  lemma ConfigValuesAreNotEmpty(overrides: Option<Settings>, env: Settings)
    ensures var r := CloudinaryConfig(overrides, env);
      r.Ok? ==> r.value.cloudName != [] && r.value.uploadPreset != []
  {
    if UsesOverrides(overrides) {
      TrimEmptyIffBlank(overrides.value.cloudName.value);
      TrimEmptyIffBlank(overrides.value.uploadPreset.value);
    }
  }

  /** One override on its own is ignored: the result is what no overrides give. */
  lemma SingleOverrideIgnored(cloudName: Option<string>, uploadPreset: Option<string>, env: Settings)
    requires !Usable(cloudName) || !Usable(uploadPreset)
    ensures CloudinaryConfig(Some(Settings(cloudName, uploadPreset)), env) == CloudinaryConfig(None, env)
  {
  }

  /** The cloud name a url-gen instance is built for (`getCloudinaryInstance`): a usable argument,
      trimmed, else the configured one. */
  function InstanceCloudName(cloudName: Option<string>, env: Settings): (r: Result<string>)
    ensures Usable(cloudName) ==> r == Ok(Trim(cloudName.value))
    ensures !Usable(cloudName) ==> r.Ok? == CloudinaryConfig(None, env).Ok?
  {
    if Usable(cloudName) then Ok(Trim(cloudName.value))
    else match CloudinaryConfig(None, env)
      case Ok(c) => Ok(c.cloudName)
      case Err(m) => Err(m)
  }

  /** `getCloudinaryInstanceOrNull`: the instance's cloud name, or `None` where the other would
      throw. */
  function InstanceOrNull(cloudName: Option<string>, env: Settings): (r: Option<string>)
    ensures r.Some? <==> InstanceCloudName(cloudName, env).Ok?
    ensures r.Some? ==> r.value == InstanceCloudName(cloudName, env).value
  {
    if Usable(cloudName) then Some(Trim(cloudName.value))
    else match InstanceCloudName(None, env)
      case Ok(name) => Some(name)
      case Err(_) => None
  }

  /** There is no instance exactly when the argument is not usable and the environment lacks
      either value. */
  lemma NoInstanceIff(cloudName: Option<string>, env: Settings)
    ensures InstanceOrNull(cloudName, env).None? <==>
      !Usable(cloudName) && !(Truthy(env.cloudName) && Truthy(env.uploadPreset))
  {
  }

  /** The overrides `uploadProjectPhoto` passes on: both options, untrimmed, when both are usable. */
  function UploadOverrides(options: Settings): (r: Option<Settings>)
    ensures r.Some? ==> r.value == options
    ensures r.Some? <==> UsesOverrides(Some(options))
  {
    if Usable(options.cloudName) && Usable(options.uploadPreset) then Some(options) else None
  }

  /** The account an upload goes to is the one the options would select as overrides. */
  lemma UploadAccount(options: Settings, env: Settings)
    ensures CloudinaryConfig(UploadOverrides(options), env) == CloudinaryConfig(Some(options), env)
  {
  }

  /** A response body as far as the upload reads it; `Unparsable` is a body that is not JSON. */
  datatype Body = Unparsable | Json(secureUrl: Option<string>, publicId: Option<string>, errorMessage: Option<string>)

  /** How an XHR upload ends: a network error, an abort, or a response. */
  datatype XhrEvent = NetworkError | Aborted | Loaded(status: int, body: Body)

  datatype Uploaded = Uploaded(secureUrl: string, publicId: string)

  predicate IsSuccessStatus(status: int) {
    200 <= status < 300
  }

  /** The message of a failed status: the body's `error.message` if it is non-empty, else the
      default. */
  function StatusFailureMessage(body: Body): (m: string)
    ensures body.Json? && Truthy(body.errorMessage) ==> m == body.errorMessage.value
    ensures !(body.Json? && Truthy(body.errorMessage)) ==> m == UploadFailedMessage
  {
    if body.Json? && Truthy(body.errorMessage) then body.errorMessage.value else UploadFailedMessage
  }

  /** The upload with a progress callback, over XHR. */
  function XhrUpload(event: XhrEvent): (r: Result<Uploaded>)
    ensures r.Ok? <==> (event.Loaded? && IsSuccessStatus(event.status) && event.body.Json?
                        && Truthy(event.body.secureUrl) && Truthy(event.body.publicId))
    ensures r.Ok? ==> r.value == Uploaded(event.body.secureUrl.value, event.body.publicId.value)
    ensures event.Loaded? && !IsSuccessStatus(event.status) ==> r == Err(StatusFailureMessage(event.body))
  {
    match event
    case NetworkError => Err(NetworkErrorMessage)
    case Aborted => Err(AbortedMessage)
    case Loaded(status, body) =>
      if IsSuccessStatus(status) then
        match body
        case Unparsable => Err(ParseFailedMessage)
        case Json(url, id, _) =>
          if Truthy(url) && Truthy(id) then Ok(Uploaded(url.value, id.value)) else Err(InvalidResponseMessage)
      else Err(StatusFailureMessage(body))
  }

  /** How the `fetch` call itself ends: it rejects (a network failure), or a response comes. */
  datatype FetchCall = FetchRejected | Responded(status: int, body: Body)

  /** How a `fetch` upload ends: a response, or an exception (a rejected `fetch`, or `res.json()`
      on a body that is not JSON) which the upload does not catch. */
  datatype FetchOutcome = Done(r: Result<Uploaded>) | Thrown

  /** The upload without a progress callback, over `fetch`. */
  function FetchUpload(call: FetchCall): (r: FetchOutcome)
    ensures r == Thrown <==> call.FetchRejected? || (IsSuccessStatus(call.status) && call.body.Unparsable?)
    ensures r.Done? ==> r.r == XhrUpload(Loaded(call.status, call.body))
  {
    match call
    case FetchRejected => Thrown
    case Responded(status, body) =>
      if !IsSuccessStatus(status) then Done(Err(StatusFailureMessage(body)))
      else match body
        case Unparsable => Thrown
        case Json(url, id, _) =>
          if !Truthy(url) || !Truthy(id) then Done(Err(InvalidResponseMessage))
          else Done(Ok(Uploaded(url.value, id.value)))
  }

  /** Both paths resolve with the same photo on exactly the same responses, and a failed
      request rejects on both: with the XHR path's message, or with what `fetch` threw. */
  lemma PathsAgreeOnSuccess(status: int, body: Body)
    ensures FetchUpload(Responded(status, body)).Done? && FetchUpload(Responded(status, body)).r.Ok?
            <==> XhrUpload(Loaded(status, body)).Ok?
    ensures XhrUpload(NetworkError) == Err(NetworkErrorMessage) && FetchUpload(FetchRejected) == Thrown
  {
  }
}
