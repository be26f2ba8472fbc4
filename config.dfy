/** The configuration records of src/config.rs and the expansion of `~` in
    the certificate and macaroon paths. Reading, writing and parsing the YAML
    file are not part of this model. */
module Config {
  import opened Outcomes
  import Strings

  const DefaultConfigPath: string := "config.yaml"

  newtype u32 = x: int | 0 <= x < 0x1_0000_0000

  /** One entry of the `jobs` list. The payment code reads the amount under
      the name `amount_in_sats` (src/lnurl.rs, src/nodes/lnd.rs) and the
      record declares it as `amount_sats`: one field here. */
  datatype ConfigJob = ConfigJob(
    name: Option<string>,
    cronExpression: string,
    amountSats: u32,
    lnAddressOrLnurl: string,
    maxFeeSats: Option<int>,
    memo: Option<string>)

  /** The deserialised file. */
  datatype Config = Config(
    macaroonPath: string,
    certPath: string,
    serverUrl: string,
    jobs: Option<seq<ConfigJob>>)

  /** The checked configuration; `J` is the job type, fixed in module Jobs. */
  datatype ValidConfig<J> = ValidConfig(
    macaroonPath: string,
    certPath: string,
    serverUrl: string,
    jobs: seq<J>)

  /** `env::var("HOME").unwrap_or("~")`; `home` is what the environment
      holds (None when the variable is unset or not valid Unicode). */
  function HomeDir(home: Option<string>): string {
    home.GetOr("~")
  }

  /** `path.replacen("~", &home_dir, 1)`. */
  function ExpandHome(path: string, home: Option<string>): string {
    Strings.ReplaceFirst(path, '~', HomeDir(home))
  }

  /** Only the first `~` is replaced, wherever it stands, and everything
      after it is kept as it is. */
  lemma ExpandHomeFirstTilde(before: string, after: string, home: string)
    requires '~' !in before
    ensures ExpandHome(before + "~" + after, Some(home)) == before + home + after
  {
    Strings.ReplaceFirstAt(before, after, '~', home);
  }

  /** A path without `~` is kept. */
  lemma ExpandHomeWithoutTilde(path: string, home: Option<string>)
    requires '~' !in path
    ensures ExpandHome(path, home) == path
  {
    Strings.ReplaceFirstAbsent(path, '~', HomeDir(home));
  }

  /** With HOME unset the replacement is `~` itself: the path is unchanged. */
  lemma ExpandHomeUnset(path: string)
    ensures ExpandHome(path, None) == path
  {
    Strings.ReplaceFirstBySelf(path, '~');
  }
}
