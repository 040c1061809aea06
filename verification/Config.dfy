// The configuration and its validation. Durations are in nanoseconds.
module Config {
  datatype SQLiteConfig = SQLiteConfig(
    cacheSize: int, tempStore: string, mmapSize: int, busyTimeout: int, synchronous: string,
    journalMode: string, foreignKeys: bool)

  datatype Configuration = Configuration(
    maxQoS: nat, tls: bool, tlsCert: string, tlsKey: string,
    maxMessageAge: int, checkInterval: int, batchSize: int, sqlite: SQLiteConfig)

  // The settings in the order in which they are checked. TlsFiles is the switch with its two file names.
  datatype Setting =
    | MaxQoS | TlsFiles | MaxMessageAge | CheckInterval | BatchSize | TempStore | Synchronous | JournalMode
    | CacheSize | MmapSize | BusyTimeout

  // The error names the first setting whose condition is violated.
  datatype Verdict = Accepted | Rejected(setting: Setting)

  const TEMP_STORES := {"MEMORY", "FILE", "DEFAULT"}
  const SYNCHRONOUS := {"OFF", "NORMAL", "FULL", "EXTRA"}
  const JOURNAL_MODES := {"DELETE", "TRUNCATE", "PERSIST", "MEMORY", "WAL", "OFF"}

  const HOUR := 3600000000000

  const DEFAULTS := Configuration(
    2, false, "", "", 24 * HOUR, HOUR, 1000,
    SQLiteConfig(50000, "MEMORY", 268435456, 30000, "NORMAL", "WAL", true))

  function Validate(cfg: Configuration): Verdict {
    if cfg.maxQoS > 2 then Rejected(MaxQoS)
    else if cfg.tls && (cfg.tlsCert == "" || cfg.tlsKey == "") then Rejected(TlsFiles)
    else if cfg.maxMessageAge <= 0 then Rejected(MaxMessageAge)
    else if cfg.checkInterval <= 0 then Rejected(CheckInterval)
    else if cfg.batchSize <= 0 then Rejected(BatchSize)
    else if cfg.sqlite.tempStore !in TEMP_STORES then Rejected(TempStore)
    else if cfg.sqlite.synchronous !in SYNCHRONOUS then Rejected(Synchronous)
    else if cfg.sqlite.journalMode !in JOURNAL_MODES then Rejected(JournalMode)
    else if cfg.sqlite.cacheSize == 0 then Rejected(CacheSize)
    else if cfg.sqlite.mmapSize < 0 then Rejected(MmapSize)
    else if cfg.sqlite.busyTimeout < 0 then Rejected(BusyTimeout)
    else Accepted
  }

  // What an otherwise accepted configuration may have in each setting.
  lemma AcceptedRanges(good: Configuration, n: int, text: string, tls: bool, cert: string, key: string)
    requires Validate(good).Accepted?
    ensures n >= 0 ==> (Validate(good.(maxQoS := n)).Accepted? <==> n == 0 || n == 1 || n == 2)
    ensures Validate(good.(tls := tls, tlsCert := cert, tlsKey := key)).Accepted? <==>
            !tls || (|cert| >= 1 && |key| >= 1)
    ensures Validate(good.(maxMessageAge := n)).Accepted? <==> n >= 1
    ensures Validate(good.(checkInterval := n)).Accepted? <==> n >= 1
    ensures Validate(good.(batchSize := n)).Accepted? <==> n >= 1
    ensures Validate(good.(sqlite := good.sqlite.(tempStore := text))).Accepted? <==>
            text == "MEMORY" || text == "FILE" || text == "DEFAULT"
    ensures Validate(good.(sqlite := good.sqlite.(synchronous := text))).Accepted? <==>
            text == "OFF" || text == "NORMAL" || text == "FULL" || text == "EXTRA"
    ensures Validate(good.(sqlite := good.sqlite.(journalMode := text))).Accepted? <==>
            || text == "DELETE" || text == "TRUNCATE" || text == "PERSIST"
            || text == "MEMORY" || text == "WAL" || text == "OFF"
    ensures Validate(good.(sqlite := good.sqlite.(cacheSize := n))).Accepted? <==> n <= -1 || n >= 1
    ensures Validate(good.(sqlite := good.sqlite.(mmapSize := n))).Accepted? <==> n >= 0
    ensures Validate(good.(sqlite := good.sqlite.(busyTimeout := n))).Accepted? <==> n >= 0
  {
  }

  // The default configuration is accepted.
  lemma DefaultsAreAccepted()
    ensures Validate(DEFAULTS).Accepted?
  {
  }

  // Correcting a rejected configuration

  // One setting taken over from another configuration.
  function Copied(cfg: Configuration, setting: Setting, from: Configuration): Configuration {
    match setting
    case MaxQoS => cfg.(maxQoS := from.maxQoS)
    case TlsFiles => cfg.(tls := from.tls, tlsCert := from.tlsCert, tlsKey := from.tlsKey)
    case MaxMessageAge => cfg.(maxMessageAge := from.maxMessageAge)
    case CheckInterval => cfg.(checkInterval := from.checkInterval)
    case BatchSize => cfg.(batchSize := from.batchSize)
    case TempStore => cfg.(sqlite := cfg.sqlite.(tempStore := from.sqlite.tempStore))
    case Synchronous => cfg.(sqlite := cfg.sqlite.(synchronous := from.sqlite.synchronous))
    case JournalMode => cfg.(sqlite := cfg.sqlite.(journalMode := from.sqlite.journalMode))
    case CacheSize => cfg.(sqlite := cfg.sqlite.(cacheSize := from.sqlite.cacheSize))
    case MmapSize => cfg.(sqlite := cfg.sqlite.(mmapSize := from.sqlite.mmapSize))
    case BusyTimeout => cfg.(sqlite := cfg.sqlite.(busyTimeout := from.sqlite.busyTimeout))
  }

  function Rank(setting: Setting): nat {
    match setting
    case MaxQoS => 0
    case TlsFiles => 1
    case MaxMessageAge => 2
    case CheckInterval => 3
    case BatchSize => 4
    case TempStore => 5
    case Synchronous => 6
    case JournalMode => 7
    case CacheSize => 8
    case MmapSize => 9
    case BusyTimeout => 10
  }

  // Taking the named setting from an accepted configuration either leads to acceptance or to a
  // setting further down.
  lemma NamedSettingIsPassed(cfg: Configuration, good: Configuration)
    requires Validate(cfg).Rejected? && Validate(good).Accepted?
    ensures var next := Validate(Copied(cfg, Validate(cfg).setting, good));
            next.Rejected? ==> Rank(next.setting) > Rank(Validate(cfg).setting)
  {
  }

  // The named setting alone is enough for a rejection, whatever the others are.
  lemma NamedSettingIsAtFault(cfg: Configuration, good: Configuration)
    requires Validate(cfg).Rejected? && Validate(good).Accepted?
    ensures var setting := Validate(cfg).setting; Validate(Copied(good, setting, cfg)) == Rejected(setting)
  {
    match Validate(cfg).setting
    case TempStore =>
    case _ =>
  }

  lemma AcceptedHasNoFault(cfg: Configuration, good: Configuration, setting: Setting)
    requires Validate(cfg).Accepted? && Validate(good).Accepted?
    ensures Validate(Copied(good, setting, cfg)).Accepted?
  {
  }

  lemma CopiedOther(cfg: Configuration, a: Setting, good: Configuration, b: Setting)
    requires a != b
    ensures Copied(good, b, Copied(cfg, a, good)) == Copied(good, b, cfg)
  {
  }

  predicate AtFault(cfg: Configuration, good: Configuration, setting: Setting) {
    Validate(Copied(good, setting, cfg)) == Rejected(setting)
  }

  // Correcting the setting named first, then the one named next and so on ends in acceptance, and
  // corrects exactly the settings that would be rejected alone, each once.
  ghost predicate Corrects(cfg: Configuration, good: Configuration, settings: seq<Setting>)
    decreases |settings|
  {
    && (settings == [] <==> Validate(cfg).Accepted?)
    && (settings != [] ==>
          && Validate(cfg) == Rejected(settings[0])
          && Corrects(Copied(cfg, settings[0], good), good, settings[1..]))
    && (forall setting :: setting in settings <==> AtFault(cfg, good, setting))
    && (forall i, j :: 0 <= i < j < |settings| ==> Rank(settings[i]) < Rank(settings[j]))
  }

  // So validation names one violated setting after the other until none is left.
  lemma {:induction false} CorrectionsReachAcceptance(cfg: Configuration, good: Configuration)
    requires Validate(good).Accepted?
    ensures exists settings :: Corrects(cfg, good, settings)
    decreases if Validate(cfg).Rejected? then 11 - Rank(Validate(cfg).setting) else 0
  {
    if Validate(cfg).Accepted? {
      forall setting
        ensures !AtFault(cfg, good, setting)
      {
        AcceptedHasNoFault(cfg, good, setting);
      }
      assert Corrects(cfg, good, []);
    } else {
      var first := Validate(cfg).setting;
      NamedSettingIsPassed(cfg, good);
      NamedSettingIsAtFault(cfg, good);
      CorrectionsReachAcceptance(Copied(cfg, first, good), good);
      var rest :| Corrects(Copied(cfg, first, good), good, rest);
      OneMoreCorrection(cfg, good, rest);
      assert Corrects(cfg, good, [first] + rest);
    }
  }

  lemma OneMoreCorrection(cfg: Configuration, good: Configuration, rest: seq<Setting>)
    requires Validate(good).Accepted? && Validate(cfg).Rejected?
    requires Corrects(Copied(cfg, Validate(cfg).setting, good), good, rest)
    ensures Corrects(cfg, good, [Validate(cfg).setting] + rest)
  {
    var first := Validate(cfg).setting;
    NamedSettingIsPassed(cfg, good);
    NamedSettingIsAtFault(cfg, good);
    assert ([first] + rest)[1..] == rest;
    assert forall i :: 0 < i < |rest| ==> Rank(rest[0]) < Rank(rest[i]);
    forall setting
      ensures setting in [first] + rest <==> AtFault(cfg, good, setting)
    {
      if setting != first {
        CopiedOther(cfg, first, good, setting);
      }
    }
  }
}
