/** Offline login of `src/auth/offline.py`: a name alone makes a profile
    that carries no access token. */
module OfflineAuth {
  import opened Common
  import opened Models
  import Launcher

  /** The longest name the offline login accepts. */
  const MaxNameLength: nat := 16

  /** The text of the `ValueError` a refused name raises. */
  const InvalidNameMessage := "Invalid username for offline mode"

  /** `OfflineAuthenticator.authenticate`: an empty name, or one longer than
      16 characters, raises `ValueError`; any other name becomes the profile's
      id and name, with type "offline" and an empty access token. */
  function Authenticate(username: string): (r: Result<map<string, string>, Error>)
    ensures r.Ok? <==> 1 <= |username| <= MaxNameLength
    ensures r.Err? ==> r.error == ValueError(InvalidNameMessage)
    ensures r.Ok? ==>
      r.value.Keys == {"id", "name", "type", "access_token"} &&
      r.value["id"] == username && r.value["name"] == username &&
      r.value["type"] == "offline" && r.value["access_token"] == ""
  {
    if username == "" || |username| > MaxNameLength then Err(ValueError(InvalidNameMessage))
    else Ok(map["id" := username, "name" := username, "type" := "offline", "access_token" := ""])
  }

  /** The sample login of the test suite. */
  lemma SampleLogin()
    ensures Authenticate("testuser").Ok?
    ensures Authenticate("testuser").value["name"] == "testuser"
    ensures Authenticate("testuser").value["type"] == "offline"
  {
  }

  /** An offline profile starts the game in demo mode: the launcher reads
      its empty token as no token, passes an empty uuid and the demo switch,
      and passes no user name. */
  lemma OfflineProfileLaunchesDemo(username: string, root: Path, metadata: VersionMetadata)
    requires Authenticate(username).Ok?
    ensures !Launcher.Online(Authenticate(username).value)
    ensures Launcher.GameArgs(root, metadata, Authenticate(username).value).Ok?
    ensures var opts := Launcher.Options(Launcher.GameArgs(root, metadata, Authenticate(username).value).value);
      Launcher.Switched(opts, "--demo") &&
      Launcher.Lookup(opts, "--uuid") == Some(Some("")) &&
      Launcher.Lookup(opts, "--username") == None
  {
    Launcher.GameArgsOffline(root, metadata, Authenticate(username).value);
  }
}
