/**
 * The application configuration of config.go and its validator, which checks the
 * required fields in a fixed order and fills in defaults in place.
 */
module Configuration {
  import opened Results

  datatype TailscaleConfig = TailscaleConfig(apiKey: string, tailnet: string)

  datatype Route53Config = Route53Config(profile: string, region: string)

  datatype CloudflareConfig = CloudflareConfig(apiToken: string)

  datatype PiholeConfig = PiholeConfig(baseURL: string, apiToken: string, tlsInsecureSkipVerify: bool)

  datatype DNSConfig = DNSConfig(
    provider: string,
    domain: string,
    zoneID: string,
    route53: Route53Config,
    cloudflare: CloudflareConfig,
    pihole: PiholeConfig)

  /** `pollInterval` is a time.Duration, in nanoseconds. */
  datatype AppConfig = AppConfig(workers: int, pollInterval: int, requiredTags: seq<string>)

  datatype LoggingConfig = LoggingConfig(level: string, format: string)

  /** The whole configuration as a value. */
  datatype Settings = Settings(tailscale: TailscaleConfig, dns: DNSConfig, app: AppConfig, logging: LoggingConfig)

  /** The errors of Validate; each stands for the message the source formats. */
  datatype ConfigError =
    | Required(field: string)                      // "<field> is required"
    | RequiredFor(field: string, provider: string) // "<field> is required for/when using <provider> provider"
    | UnsupportedProvider(provider: string)
    | InvalidLevel(level: string)
    | InvalidFormat(format: string)

  const ValidLevels: seq<string> := ["debug", "info", "warn", "error"]
  const ValidFormats: seq<string> := ["json", "console"]
  const DefaultWorkers: int := 2
  /** 30 * time.Second. */
  const DefaultPollInterval: int := 30_000_000_000

  // ---------------------------------------------------------------------------
  // Validate as a function of the settings

  /** The provider-specific check; the four required fields are already present. */
  function ProviderCheck(dns: DNSConfig): Option<ConfigError> {
    match dns.provider
    case "route53" =>
      if dns.zoneID == "" then Some(RequiredFor("dns.zone_id", "route53")) else None
    case "cloudflare" =>
      if dns.zoneID == "" then Some(RequiredFor("dns.zone_id", "cloudflare"))
      else if dns.cloudflare.apiToken == "" then Some(RequiredFor("dns.cloudflare.api_token", "cloudflare"))
      else None
    case "pihole" =>
      if dns.pihole.baseURL == "" then Some(RequiredFor("dns.pihole.base_url", "pihole"))
      else if dns.pihole.apiToken == "" then Some(RequiredFor("dns.pihole.api_token", "pihole"))
      else None
    case _ => Some(UnsupportedProvider(dns.provider))
  }

  /** The application defaults: a non-positive worker count or poll interval is replaced. */
  function WithAppDefaults(app: AppConfig): AppConfig {
    app.(workers := if app.workers <= 0 then DefaultWorkers else app.workers,
         pollInterval := if app.pollInterval <= 0 then DefaultPollInterval else app.pollInterval)
  }

  /**
   * Validate as a transition: the settings it leaves behind and the error it returns.
   * The defaults written before a later error stay written.
   */
  function Validation(s: Settings): (Settings, Option<ConfigError>) {
    if s.tailscale.apiKey == "" then (s, Some(Required("tailscale.api_key")))
    else if s.tailscale.tailnet == "" then (s, Some(Required("tailscale.tailnet")))
    else if s.dns.provider == "" then (s, Some(Required("dns.provider")))
    else if s.dns.domain == "" then (s, Some(Required("dns.domain")))
    else if ProviderCheck(s.dns).Some? then (s, ProviderCheck(s.dns))
    else
      var s1 := s.(app := WithAppDefaults(s.app));
      var level := s.logging.level;
      if level !in ValidLevels && level != "" then (s1, Some(InvalidLevel(level)))
      else
        var s2 := s1.(logging := s1.logging.(level := if level in ValidLevels then level else "info"));
        var format := s.logging.format;
        if format !in ValidFormats && format != "" then (s2, Some(InvalidFormat(format)))
        else (s2.(logging := s2.logging.(format := if format in ValidFormats then format else "console")), None)
  }

  // ---------------------------------------------------------------------------
  // What Validate promises

  /** The provider's own settings are complete. */
  predicate ProviderComplete(dns: DNSConfig) {
    || (dns.provider == "route53" && dns.zoneID != "")
    || (dns.provider == "cloudflare" && dns.zoneID != "" && dns.cloudflare.apiToken != "")
    || (dns.provider == "pihole" && dns.pihole.baseURL != "" && dns.pihole.apiToken != "")
  }

  /** Validate succeeds exactly on complete settings with an empty or known level and format. */
  lemma ValidationSucceedsIff(s: Settings)
    ensures Validation(s).1.None? <==>
      && s.tailscale.apiKey != "" && s.tailscale.tailnet != ""
      && s.dns.provider != "" && s.dns.domain != ""
      && ProviderComplete(s.dns)
      && (s.logging.level == "" || s.logging.level in ValidLevels)
      && (s.logging.format == "" || s.logging.format in ValidFormats)
  {
  }

  /**
   * The four required fields are checked first and in order: the first one missing is
   * the one reported, and nothing has been changed yet.
   */
  lemma MissingFieldsFirst(s: Settings)
    ensures s.tailscale.apiKey == "" ==> Validation(s) == (s, Some(Required("tailscale.api_key")))
    ensures s.tailscale.apiKey != "" && s.tailscale.tailnet == "" ==>
      Validation(s) == (s, Some(Required("tailscale.tailnet")))
    ensures s.tailscale.apiKey != "" && s.tailscale.tailnet != "" && s.dns.provider == "" ==>
      Validation(s) == (s, Some(Required("dns.provider")))
    ensures s.tailscale.apiKey != "" && s.tailscale.tailnet != "" && s.dns.provider != "" && s.dns.domain == "" ==>
      Validation(s) == (s, Some(Required("dns.domain")))
    ensures (Validation(s).1.Some? && Validation(s).1.value.Required?) <==>
      s.tailscale.apiKey == "" || s.tailscale.tailnet == "" || s.dns.provider == "" || s.dns.domain == ""
  {
  }

  /**
   * Once the four required fields are present: route53 needs a zone id; cloudflare a
   * zone id and then an API token; pihole a base URL and then an API token, and its
   * verdict does not depend on the zone id; any other provider is unsupported.
   */
  lemma ProviderRequirements(s: Settings)
    requires s.tailscale.apiKey != "" && s.tailscale.tailnet != "" && s.dns.provider != "" && s.dns.domain != ""
    ensures var err := Validation(s).1;
      && (s.dns.provider == "route53" ==>
            (err == Some(RequiredFor("dns.zone_id", "route53")) <==> s.dns.zoneID == ""))
      && (s.dns.provider == "cloudflare" ==>
            && (err == Some(RequiredFor("dns.zone_id", "cloudflare")) <==> s.dns.zoneID == "")
            && (err == Some(RequiredFor("dns.cloudflare.api_token", "cloudflare")) <==>
                  s.dns.zoneID != "" && s.dns.cloudflare.apiToken == ""))
      && (s.dns.provider == "pihole" ==>
            && (err == Some(RequiredFor("dns.pihole.base_url", "pihole")) <==> s.dns.pihole.baseURL == "")
            && (err == Some(RequiredFor("dns.pihole.api_token", "pihole")) <==>
                  s.dns.pihole.baseURL != "" && s.dns.pihole.apiToken == ""))
      && (s.dns.provider !in {"route53", "cloudflare", "pihole"} ==>
            Validation(s) == (s, Some(UnsupportedProvider(s.dns.provider))))
    ensures s.dns.provider == "pihole" ==>
      forall zone :: Validation(s.(dns := s.dns.(zoneID := zone))).1 == Validation(s).1
  {
  }

  /**
   * Past the provider check the worker count and poll interval get their defaults,
   * positive values are kept, and the Tailscale, DNS and tag settings never change.
   */
  lemma AppDefaults(s: Settings)
    ensures var (s', err) := Validation(s);
      && s'.tailscale == s.tailscale && s'.dns == s.dns && s'.app.requiredTags == s.app.requiredTags
      && (err.None? || err.value.InvalidLevel? || err.value.InvalidFormat? ==>
            && (s.app.workers > 0 ==> s'.app.workers == s.app.workers)
            && (s.app.workers <= 0 ==> s'.app.workers == DefaultWorkers)
            && (s.app.pollInterval > 0 ==> s'.app.pollInterval == s.app.pollInterval)
            && (s.app.pollInterval <= 0 ==> s'.app.pollInterval == DefaultPollInterval))
  {
  }

  /**
   * Past the provider check: an empty level becomes "info", a known level is kept, any
   * other level is reported; likewise an empty format becomes "console", json and
   * console are kept, and any other format is reported.
   */
  lemma LoggingRules(s: Settings)
    requires ProviderComplete(s.dns)
    requires s.tailscale.apiKey != "" && s.tailscale.tailnet != "" && s.dns.domain != ""
    ensures var (s', err) := Validation(s);
      && (s.logging.level == "" ==> s'.logging.level == "info")
      && (s.logging.level in ValidLevels ==> s'.logging.level == s.logging.level)
      && (err == Some(InvalidLevel(s.logging.level)) <==> s.logging.level != "" && s.logging.level !in ValidLevels)
      && (err.None? ==> s.logging.format != "" || s'.logging.format == "console")
      && (err.None? && s.logging.format in ValidFormats ==> s'.logging.format == s.logging.format)
      && (err == Some(InvalidFormat(s.logging.format)) <==>
            (s.logging.level == "" || s.logging.level in ValidLevels) &&
            s.logging.format != "" && s.logging.format !in ValidFormats)
  {
  }

  /** The settings a successful Validate leaves behind are fully usable. */
  predicate Usable(s: Settings) {
    s.app.workers > 0 && s.app.pollInterval > 0 && s.logging.level in ValidLevels && s.logging.format in ValidFormats
  }

  /** On success the settings are usable, and validating them again succeeds and changes nothing. */
  lemma ValidationIdempotent(s: Settings)
    requires Validation(s).1.None?
    ensures Usable(Validation(s).0)
    ensures Validation(Validation(s).0) == (Validation(s).0, None)
  {
    var s' := Validation(s).0;
    assert s'.logging.level in ValidLevels;
    assert s'.logging.format in ValidFormats;
  }

  // ---------------------------------------------------------------------------
  // The Config object

  /** Config: Validate rewrites its application and logging settings in place. */
  class Config {
    var tailscale: TailscaleConfig
    var dns: DNSConfig
    var app: AppConfig
    var logging: LoggingConfig

    constructor (s: Settings)
      ensures Current() == s
    {
      tailscale, dns, app, logging := s.tailscale, s.dns, s.app, s.logging;
    }

    function Current(): Settings
      reads this
    {
      Settings(tailscale, dns, app, logging)
    }

    /**
     * Validate: the required fields, the provider's own fields, then the defaults for
     * workers and poll interval, then the logging level and format, each looked up in
     * its list of valid values.
     */
    method Validate() returns (err: Option<ConfigError>)
      modifies this
      ensures (Current(), err) == Validation(old(Current()))
    {
      if tailscale.apiKey == "" {
        return Some(Required("tailscale.api_key"));
      }
      if tailscale.tailnet == "" {
        return Some(Required("tailscale.tailnet"));
      }
      if dns.provider == "" {
        return Some(Required("dns.provider"));
      }
      if dns.domain == "" {
        return Some(Required("dns.domain"));
      }
      match dns.provider {
        case "route53" =>
          if dns.zoneID == "" {
            return Some(RequiredFor("dns.zone_id", "route53"));
          }
        case "cloudflare" =>
          if dns.zoneID == "" {
            return Some(RequiredFor("dns.zone_id", "cloudflare"));
          }
          if dns.cloudflare.apiToken == "" {
            return Some(RequiredFor("dns.cloudflare.api_token", "cloudflare"));
          }
        case "pihole" =>
          if dns.pihole.baseURL == "" {
            return Some(RequiredFor("dns.pihole.base_url", "pihole"));
          }
          if dns.pihole.apiToken == "" {
            return Some(RequiredFor("dns.pihole.api_token", "pihole"));
          }
        case _ =>
          return Some(UnsupportedProvider(dns.provider));
      }

      if app.workers <= 0 {
        app := app.(workers := 2);
      }
      if app.pollInterval <= 0 {
        app := app.(pollInterval := 30_000_000_000);
      }

      var validLevels := ["debug", "info", "warn", "error"];
      var level := logging.level;
      var levelValid := false;
      var i := 0;
      while i < |validLevels|
        invariant 0 <= i <= |validLevels|
        invariant levelValid <==> level in validLevels[..i]
      {
        if level == validLevels[i] {
          levelValid := true;
          break;
        }
        i := i + 1;
      }
      assert levelValid <==> level in ValidLevels by {
        assert validLevels[..|validLevels|] == validLevels;
      }
      if !levelValid {
        if level == "" {
          logging := logging.(level := "info");
        } else {
          return Some(InvalidLevel(level));
        }
      }

      var validFormats := ["json", "console"];
      var format := logging.format;
      var formatValid := false;
      var j := 0;
      while j < |validFormats|
        invariant 0 <= j <= |validFormats|
        invariant formatValid <==> format in validFormats[..j]
      {
        if format == validFormats[j] {
          formatValid := true;
          break;
        }
        j := j + 1;
      }
      assert formatValid <==> format in ValidFormats by {
        assert validFormats[..|validFormats|] == validFormats;
      }
      if !formatValid {
        if format == "" {
          logging := logging.(format := "console");
        } else {
          return Some(InvalidFormat(format));
        }
      }
      return None;
    }
  }
}
