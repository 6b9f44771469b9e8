/** The app's API address: the configured one with surrounding blanks and
    trailing slashes removed, else a per-platform local default. */
module Config {
  import opened Options
  import opened JsText

  /** `s.replace(/\/+$/, '')`: every trailing slash goes, and nothing else. */
  function StripTrailingSlashes(s: string): (r: string)
    ensures |r| <= |s| && r == s[..|r|]
    ensures r == [] || r[|r| - 1] != '/'
    ensures forall i | |r| <= i < |s| :: s[i] == '/'
  {
    if s != [] && s[|s| - 1] == '/' then StripTrailingSlashes(s[..|s| - 1]) else s
  }

  /** `normalizeBaseUrl(value)`: trim, then drop the trailing slashes. */
  function NormalizeBaseUrl(value: string): (r: string)
    ensures |r| <= |Trim(value)| && r == Trim(value)[..|r|]
    ensures r == [] || r[|r| - 1] != '/'
    ensures forall i | |r| <= i < |Trim(value)| :: Trim(value)[i] == '/'
  {
    StripTrailingSlashes(Trim(value))
  }

  /** An address already without blanks around it and without a trailing
      slash comes back as it was. */
  lemma CleanAddressUnchanged(value: string)
    requires Unpadded(value)
    requires value == [] || value[|value| - 1] != '/'
    ensures NormalizeBaseUrl(value) == value
  {
    TrimUnpadded(value);
  }

  /** Normalising twice can differ from normalising once: the slash goes
      before the blank it uncovers is trimmed. */
  lemma NormalizeNotIdempotent()
    ensures NormalizeBaseUrl("x /") == "x "
    ensures NormalizeBaseUrl("x ") == "x"
  {
    TrimSlashed();
    StripSlashed();
    TrimBlankEnd();
    StripPlain();
  }

  lemma TrimSlashed()
    ensures Trim("x /") == "x /"
  {
    TrimUnpadded("x /");
  }

  lemma StripSlashed()
    ensures StripTrailingSlashes("x /") == "x "
  {
    assert "x /"[..2] == "x ";
    assert StripTrailingSlashes("x ") == "x ";
  }

  lemma TrimBlankEnd()
    ensures Trim("x ") == "x"
  {
    assert !IsSpace("x "[0]);
    assert TrimStart("x ") == "x ";
    assert TrimEnd("x ") == "x" by {
      assert "x "[..1] == "x";
    }
  }

  lemma StripPlain()
    ensures StripTrailingSlashes("x") == "x"
  {
  }

  /** The platforms `Platform.select` distinguishes. */
  datatype Platform = Android | Ios | Web | OtherPlatform

  /** The local backend as seen from each platform: the Android emulator
      reaches the host machine at 10.0.2.2. */
  function DefaultBaseUrl(p: Platform): string {
    match p
    case Android => "http://10.0.2.2:4000"
    case _ => "http://localhost:4000"
  }

  /** `BASE_URL`: the normalised configured address when it is not empty,
      else the platform default; an unset variable reads as `''`. */
  function BaseUrl(env: Option<string>, p: Platform): (r: string)
    ensures r != ""
    ensures NormalizeBaseUrl(env.GetOr("")) != "" ==> r == NormalizeBaseUrl(env.GetOr(""))
    ensures NormalizeBaseUrl(env.GetOr("")) == "" ==> r == DefaultBaseUrl(p)
  {
    var configured := NormalizeBaseUrl(env.GetOr(""));
    if configured != "" then configured else DefaultBaseUrl(p)
  }

  /** An unset, empty or blank variable selects the default. */
  lemma BlankSelectsDefault(env: string, p: Platform)
    requires forall i | 0 <= i < |env| :: IsSpace(env[i])
    ensures BaseUrl(None, p) == DefaultBaseUrl(p)
    ensures BaseUrl(Some(env), p) == DefaultBaseUrl(p)
  {
    TrimEmptyIff("");
    TrimEmptyIff(env);
  }
}
