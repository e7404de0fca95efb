/** Reading the digest's settings from the environment (src/config.ts). The
    environment is a map from variable names to values; a throw is an `Err`. */
module Config {
  import opened Wrappers
  import opened Strings
  import opened Seqs

  type Env = map<string, string>

  datatype Config = Config(
    smtpHost: string,
    smtpPort: int,
    smtpUser: string,
    smtpPass: string,
    smtpSecure: bool,
    from: string,
    to: seq<string>,
    subject: string,
    lookbackHours: int,
    maxItemsPerSection: int,
    dryRun: bool,
    summarizeEnabled: bool,
    summarizeModel: string,
    summarizeTop: int)

  const DEFAULT_SMTP_PORT := 587
  const DEFAULT_SUBJECT := "Daily Tech + Hiring Digest"
  const DEFAULT_LOOKBACK_HOURS := 36
  const DEFAULT_MAX_ITEMS_PER_SECTION := 12
  const DEFAULT_SUMMARIZE_MODEL := "gpt-4o-mini"
  const DEFAULT_SUMMARIZE_TOP := 3

  /** The variables `loadConfig` demands, in the order it reads them. */
  const REQUIRED: seq<string> := ["SMTP_HOST", "SMTP_USER", "SMTP_PASS", "DIGEST_FROM", "DIGEST_TO"]

  /** `process.env[name]` */
  function Lookup(env: Env, name: string): Option<string> {
    if name in env then Some(env[name]) else None
  }

  /** A variable that is unset or set to the empty string. */
  predicate Missing(env: Env, name: string) {
    name !in env || env[name] == ""
  }

  /** Every required variable is set to a non-empty value. */
  predicate RequiredSet(env: Env) {
    forall name :: name in REQUIRED ==> !Missing(env, name)
  }

  const MISSING_PREFIX := "Missing required env var: "
  const NO_RECIPIENTS := "DIGEST_TO must contain at least one recipient"

  function MissingMessage(name: string): string {
    MISSING_PREFIX + name
  }

  /** `requireEnv`: the value as it is, or an error naming the variable. */
  function RequireEnv(env: Env, name: string): (r: Result<string>)
    ensures r.Ok? <==> !Missing(env, name)
    ensures r.Ok? ==> name in env && r.value == env[name] && r.value != ""
    ensures r.Err? ==> r.error == MissingMessage(name)
  {
    if Missing(env, name) then Err(MissingMessage(name)) else Ok(env[name])
  }

  /** `parseBool`: the fallback for an unset or empty value; otherwise whether
      the value is `true` in any letter case, or exactly `1`. */
  function ParseBool(value: Option<string>, fallback: bool): (b: bool)
    ensures value.None? || value == Some("") ==> b == fallback
    ensures value.Some? && value.value != "" ==> (b <==> Lower(value.value) == "true" || value.value == "1")
  {
    if value.None? || value.value == "" then fallback
    else Lower(value.value) == "true" || value.value == "1"
  }

  /** `parseNumber` over `Number(value)`, given as `toNumber`, which yields
      `None` where the result is not finite. */
  function ParseNumber(value: Option<string>, fallback: int, toNumber: string -> Option<int>): (n: int)
    ensures value.None? || value == Some("") ==> n == fallback
    ensures value.Some? && value.value != "" && toNumber(value.value).None? ==> n == fallback
    ensures value.Some? && value.value != "" && toNumber(value.value).Some? ==> n == toNumber(value.value).value
  {
    if value.None? || value.value == "" then fallback
    else match toNumber(value.value)
      case Some(parsed) => parsed
      case None => fallback
  }

  /** The comma-separated pieces of `value`, each trimmed. */
  function TrimmedPieces(value: string): (r: seq<string>)
    ensures |r| == |Split(value, ',')|
    ensures forall j :: 0 <= j < |r| ==> r[j] == Trim(Split(value, ',')[j])
  {
    var parts := Split(value, ',');
    seq(|parts|, i requires 0 <= i < |parts| => Trim(parts[i]))
  }

  predicate NonEmpty(s: string) {
    s != ""
  }

  /** `value.split(",").map(trim).filter(Boolean)`: the trimmed pieces that
      are not empty, in order. */
  function Recipients(value: string): (r: seq<string>)
    ensures forall i :: 0 <= i < |r| ==> r[i] != "" && r[i] in TrimmedPieces(value)
    ensures forall j :: 0 <= j < |TrimmedPieces(value)| && TrimmedPieces(value)[j] != "" ==> TrimmedPieces(value)[j] in r
    ensures IsSubseq(r, TrimmedPieces(value))
  {
    Filter(TrimmedPieces(value), NonEmpty)
  }

  /** A piece that occurs several times is a recipient as many times: no
      duplicate is dropped. */
  lemma RecipientsCounts(value: string)
    ensures forall x :: multiset(Recipients(value))[x] == if x != "" then multiset(TrimmedPieces(value))[x] else 0
  {
    FilterMultiset(TrimmedPieces(value), NonEmpty);
  }

  /** Every recipient is trimmed and holds no comma. */
  lemma RecipientsClean(value: string)
    ensures forall i :: 0 <= i < |Recipients(value)| ==> IsTrimmed(Recipients(value)[i]) && ',' !in Recipients(value)[i]
  {
    var parts := Split(value, ',');
    var pieces := TrimmedPieces(value);
    var r := Recipients(value);
    forall i | 0 <= i < |r| ensures IsTrimmed(r[i]) && ',' !in r[i] {
      assert r[i] in pieces;
      var j :| 0 <= j < |pieces| && pieces[j] == r[i];
      TrimChars(parts[j]);
    }
  }

  /** `x || d` on an optional string. */
  function OrDefault(value: Option<string>, default: string): string {
    if value.Some? && value.value != "" then value.value else default
  }

  /** `loadConfig` */
  function LoadConfig(env: Env, toNumber: string -> Option<int>): (r: Result<Config>)
    ensures r.Ok? ==> r.value.to != [] && forall i :: 0 <= i < |r.value.to| ==> r.value.to[i] != ""
    ensures r.Ok? && Missing(env, "SMTP_PORT") ==> r.value.smtpPort == 587
    ensures r.Ok? && Missing(env, "DIGEST_SUBJECT") ==> r.value.subject == "Daily Tech + Hiring Digest"
    ensures r.Ok? && Missing(env, "LOOKBACK_HOURS") ==> r.value.lookbackHours == 36
    ensures r.Ok? && Missing(env, "MAX_ITEMS_PER_SECTION") ==> r.value.maxItemsPerSection == 12
    ensures r.Ok? && Missing(env, "SUMMARIZE_MODEL") ==> r.value.summarizeModel == "gpt-4o-mini"
    ensures r.Ok? && Missing(env, "SUMMARIZE_TOP") ==> r.value.summarizeTop == 3
    ensures r.Ok? && Missing(env, "DRY_RUN") ==> !r.value.dryRun
    ensures r.Ok? && Missing(env, "SMTP_SECURE") ==> !r.value.smtpSecure
    ensures r.Ok? && Missing(env, "SUMMARIZE_ENABLED") ==> !r.value.summarizeEnabled
    ensures r.Ok? ==> r.value.smtpPort == ParseNumber(Lookup(env, "SMTP_PORT"), DEFAULT_SMTP_PORT, toNumber)
    ensures r.Ok? ==> r.value.smtpSecure == ParseBool(Lookup(env, "SMTP_SECURE"), false)
    ensures r.Ok? ==> r.value.subject == OrDefault(Lookup(env, "DIGEST_SUBJECT"), DEFAULT_SUBJECT)
    ensures r.Ok? ==> r.value.lookbackHours == ParseNumber(Lookup(env, "LOOKBACK_HOURS"), DEFAULT_LOOKBACK_HOURS, toNumber)
    ensures r.Ok? ==> r.value.maxItemsPerSection ==
                        ParseNumber(Lookup(env, "MAX_ITEMS_PER_SECTION"), DEFAULT_MAX_ITEMS_PER_SECTION, toNumber)
    ensures r.Ok? ==> r.value.dryRun == ParseBool(Lookup(env, "DRY_RUN"), false)
    ensures r.Ok? ==> r.value.summarizeEnabled == ParseBool(Lookup(env, "SUMMARIZE_ENABLED"), false)
    ensures r.Ok? ==> r.value.summarizeModel == OrDefault(Lookup(env, "SUMMARIZE_MODEL"), DEFAULT_SUMMARIZE_MODEL)
    ensures r.Ok? ==> r.value.summarizeTop == ParseNumber(Lookup(env, "SUMMARIZE_TOP"), DEFAULT_SUMMARIZE_TOP, toNumber)
  {
    var dryRun := ParseBool(Lookup(env, "DRY_RUN"), false);
    var smtpHost :- RequireEnv(env, "SMTP_HOST");
    var smtpPort := ParseNumber(Lookup(env, "SMTP_PORT"), DEFAULT_SMTP_PORT, toNumber);
    var smtpUser :- RequireEnv(env, "SMTP_USER");
    var smtpPass :- RequireEnv(env, "SMTP_PASS");
    var smtpSecure := ParseBool(Lookup(env, "SMTP_SECURE"), false);
    var from :- RequireEnv(env, "DIGEST_FROM");
    var toValue :- RequireEnv(env, "DIGEST_TO");
    var to := Recipients(toValue);
    if |to| == 0 then Err(NO_RECIPIENTS)
    else
      Ok(Config(
        smtpHost, smtpPort, smtpUser, smtpPass, smtpSecure, from, to,
        OrDefault(Lookup(env, "DIGEST_SUBJECT"), DEFAULT_SUBJECT),
        ParseNumber(Lookup(env, "LOOKBACK_HOURS"), DEFAULT_LOOKBACK_HOURS, toNumber),
        ParseNumber(Lookup(env, "MAX_ITEMS_PER_SECTION"), DEFAULT_MAX_ITEMS_PER_SECTION, toNumber),
        dryRun,
        ParseBool(Lookup(env, "SUMMARIZE_ENABLED"), false),
        OrDefault(Lookup(env, "SUMMARIZE_MODEL"), DEFAULT_SUMMARIZE_MODEL),
        ParseNumber(Lookup(env, "SUMMARIZE_TOP"), DEFAULT_SUMMARIZE_TOP, toNumber)))
  }

  /** The required variables are checked in order: the error names the first
      one that is missing. */
  lemma LoadConfigFirstMissing(env: Env, toNumber: string -> Option<int>, k: nat)
    requires k < |REQUIRED| && Missing(env, REQUIRED[k])
    requires forall j :: 0 <= j < k ==> !Missing(env, REQUIRED[j])
    ensures LoadConfig(env, toNumber) == Err(MissingMessage(REQUIRED[k]))
  {
    if k > 0 {
      assert !Missing(env, REQUIRED[0]);
    }
    if k > 1 {
      assert !Missing(env, REQUIRED[1]);
    }
    if k > 2 {
      assert !Missing(env, REQUIRED[2]);
    }
    if k > 3 {
      assert !Missing(env, REQUIRED[3]);
    }
  }

  lemma RequiredSetIff(env: Env)
    ensures RequiredSet(env) <==>
              && !Missing(env, "SMTP_HOST") && !Missing(env, "SMTP_USER") && !Missing(env, "SMTP_PASS")
              && !Missing(env, "DIGEST_FROM") && !Missing(env, "DIGEST_TO")
  {
    assert REQUIRED[0] == "SMTP_HOST" && REQUIRED[1] == "SMTP_USER" && REQUIRED[2] == "SMTP_PASS";
    assert REQUIRED[3] == "DIGEST_FROM" && REQUIRED[4] == "DIGEST_TO";
  }

  /** Loading succeeds exactly when every required variable is set and
      `DIGEST_TO` names at least one recipient. */
  lemma LoadConfigOk(env: Env, toNumber: string -> Option<int>)
    ensures LoadConfig(env, toNumber).Ok? <==>
              RequiredSet(env) && "DIGEST_TO" in env && Recipients(env["DIGEST_TO"]) != []
  {
    RequiredSetIff(env);
  }

  /** With every required variable set, the only possible error is an empty
      recipient list. */
  lemma LoadConfigNoRecipients(env: Env, toNumber: string -> Option<int>)
    requires RequiredSet(env)
    ensures LoadConfig(env, toNumber).Err? ==>
              LoadConfig(env, toNumber).error == NO_RECIPIENTS
  {
    RequiredSetIff(env);
  }

  /** The required values are taken as they are and the recipients are the
      pieces of `DIGEST_TO`. */
  lemma LoadConfigValues(env: Env, toNumber: string -> Option<int>)
    requires LoadConfig(env, toNumber).Ok?
    ensures RequiredSet(env)
    ensures var c := LoadConfig(env, toNumber).value;
            && c.smtpHost == env["SMTP_HOST"] && c.smtpUser == env["SMTP_USER"]
            && c.smtpPass == env["SMTP_PASS"] && c.from == env["DIGEST_FROM"]
            && c.to == Recipients(env["DIGEST_TO"])
  {
    RequiredSetIff(env);
  }
}
