// The data source name of the SQLite database, and how its parts are found again.
module Dsn {
  import opened Config

  // Decimal numerals, as %d prints them

  function PrintNat(n: nat): string {
    if n < 10 then ["0123456789"[n]] else PrintNat(n / 10) + ["0123456789"[n % 10]]
  }

  function PrintInt(n: int): string {
    if n < 0 then "-" + PrintNat(-n) else PrintNat(n)
  }

  function BuildSQLiteDSN(dbPath: string, cfg: SQLiteConfig): string {
    var foreignKeys := if cfg.foreignKeys then "ON" else "OFF";
    dbPath
    + "?_journal_mode=" + cfg.journalMode
    + "&_synchronous=" + cfg.synchronous
    + "&_cache_size=" + PrintInt(cfg.cacheSize)
    + "&_foreign_keys=" + foreignKeys
    + "&_busy_timeout=" + PrintInt(cfg.busyTimeout)
    + "&_temp_store=" + cfg.tempStore
    + "&_mmap_size=" + PrintInt(cfg.mmapSize)
  }

  // Reading a data source name back, without reference to how it is printed

  datatype Option<T> = None | Some(value: T)

  predicate Digit(c: char) {
    '0' <= c <= '9'
  }

  // The value of a sequence of digits, and nothing for any other text.
  function ReadNat(s: string): Option<nat> {
    if s == [] || !Digit(s[|s| - 1]) then None
    else
      var digit := s[|s| - 1] as int - '0' as int;
      if |s| == 1 then Some(digit)
      else
        match ReadNat(s[..|s| - 1])
        case None => None
        case Some(n) => Some(10 * n + digit)
  }

  function ReadInt(s: string): Option<int> {
    if s != [] && s[0] == '-' then
      match ReadNat(s[1..])
      case None => None
      case Some(n) => Some(-(n as int))
    else
      match ReadNat(s)
      case None => None
      case Some(n) => Some(n)
  }

  function ReadSwitch(s: string): Option<bool> {
    if s == "ON" then Some(true) else if s == "OFF" then Some(false) else None
  }

  // -1 if c does not occur
  function LastIndex(s: string, c: char): (i: int)
    ensures -1 <= i < |s|
  {
    if s == [] then -1
    else if s[|s| - 1] == c then |s| - 1
    else LastIndex(s[..|s| - 1], c)
  }

  function Split(s: string, separator: char): (parts: seq<string>)
    ensures parts != []
  {
    if s == [] then [[]]
    else
      var rest := Split(s[1..], separator);
      if s[0] == separator then [[]] + rest else [[s[0]] + rest[0]] + rest[1..]
  }

  datatype List = Nil | Cons(head: string, tail: List)

  // The values of a query string whose keys are the given ones, in order.
  function Values(parts: seq<string>, keys: List): Option<List> {
    match keys
    case Nil => if parts == [] then Some(Nil) else None
    case Cons(key, others) =>
      if parts == [] then None
      else
        var pair := Split(parts[0], '=');
        if |pair| != 2 || pair[0] != key then None
        else
          match Values(parts[1..], others)
          case None => None
          case Some(rest) => Some(Cons(pair[1], rest))
  }

  function Seven(a: string, b: string, c: string, d: string, e: string, f: string, g: string): List {
    Cons(a, Cons(b, Cons(c, Cons(d, Cons(e, Cons(f, Cons(g, Nil)))))))
  }

  const KEYS := Seven("_journal_mode", "_synchronous", "_cache_size", "_foreign_keys", "_busy_timeout",
                      "_temp_store", "_mmap_size")

  function ReadConfig(values: List): Option<SQLiteConfig> {
    match values
    case Cons(journal, Cons(sync, Cons(cache, Cons(keys, Cons(busy, Cons(temp, Cons(mmap, Nil))))))) =>
      var c, m, b, k := ReadInt(cache), ReadInt(mmap), ReadInt(busy), ReadSwitch(keys);
      if c.Some? && m.Some? && b.Some? && k.Some? then
        Some(SQLiteConfig(c.value, temp, m.value, b.value, sync, journal, k.value))
      else None
    case _ => None
  }

  function ReadDSN(dsn: string): Option<(string, SQLiteConfig)> {
    var i := LastIndex(dsn, '?');
    if i < 0 then None
    else
      match Values(Split(dsn[i + 1..], '&'), KEYS)
      case None => None
      case Some(values) =>
        match ReadConfig(values)
        case None => None
        case Some(cfg) => Some((dsn[..i], cfg))
  }

  // Numerals

  predicate Digits(s: string) {
    s != [] && forall i :: 0 <= i < |s| ==> Digit(s[i])
  }

  // Digits without a leading zero, after a minus sign for a negative number.
  predicate Canonical(s: string) {
    var digits := if s != [] && s[0] == '-' then s[1..] else s;
    Digits(digits) && (digits[0] == '0' ==> s == "0")
  }

  lemma {:induction false} PrintNatIsCanonical(n: nat)
    ensures ReadNat(PrintNat(n)) == Some(n)
    ensures Digits(PrintNat(n)) && (PrintNat(n)[0] == '0' <==> n == 0)
  {
    if n >= 10 {
      PrintNatIsCanonical(n / 10);
      assert PrintNat(n)[..|PrintNat(n)| - 1] == PrintNat(n / 10);
    }
  }

  lemma DigitOf(c: char)
    requires Digit(c)
    ensures "0123456789"[c as int - '0' as int] == c
  {
  }

  lemma PrintNatSnoc(n: nat, digit: nat)
    requires n > 0 && digit < 10
    ensures PrintNat(10 * n + digit) == PrintNat(n) + ["0123456789"[digit]]
  {
    assert (10 * n + digit) / 10 == n && (10 * n + digit) % 10 == digit;
  }

  lemma ReadNatSnoc(front: string, last: char)
    requires front != [] && ReadNat(front).Some? && Digit(last)
    ensures ReadNat(front + [last]) == Some(10 * ReadNat(front).value + (last as int - '0' as int))
  {
    assert (front + [last])[..|front|] == front;
  }

  lemma CanonicalSnoc(front: string, last: char, n: nat, m: nat)
    requires front != [] && Digit(last) && n > 0 && m == 10 * n + (last as int - '0' as int)
    requires ReadNat(front) == Some(n) && PrintNat(n) == front
    ensures ReadNat(front + [last]) == Some(m) && PrintNat(m) == front + [last]
  {
    ReadNatSnoc(front, last);
    PrintNatSnoc(n, last as int - '0' as int);
    DigitOf(last);
  }

  lemma {:induction false} CanonicalIsPrinted(s: string)
    requires Digits(s) && (s[0] == '0' ==> |s| == 1)
    ensures ReadNat(s).Some? && PrintNat(ReadNat(s).value) == s
    ensures ReadNat(s).value == 0 <==> s[0] == '0'
  {
    if |s| == 1 {
      DigitOf(s[0]);
    } else {
      var front, last := s[..|s| - 1], s[|s| - 1];
      assert s == front + [last] && front[0] == s[0];
      CanonicalIsPrinted(front);
      var n := ReadNat(front).value;
      CanonicalSnoc(front, last, n, 10 * n + (last as int - '0' as int));
    }
  }

  // The printed numeral is canonical, and the only canonical text with its value.
  lemma PrintIntIsCanonical(n: int, s: string)
    ensures s == PrintInt(n) <==> Canonical(s) && ReadInt(s) == Some(n)
    ensures PrintInt(n) != [] && (PrintInt(n)[0] == '-' <==> n < 0)
  {
    PrintedIsCanonical(n);
    if Canonical(s) && ReadInt(s) == Some(n) {
      CanonicalTextIsPrinted(n, s);
    }
  }

  lemma PrintedIsCanonical(n: int)
    ensures Canonical(PrintInt(n)) && ReadInt(PrintInt(n)) == Some(n)
    ensures PrintInt(n)[0] == '-' <==> n < 0
  {
    PrintNatIsCanonical(if n < 0 then -n else n);
    if n < 0 {
      assert PrintInt(n)[1..] == PrintNat(-n);
    } else if n == 0 {
      assert PrintInt(n) == "0";
    }
  }

  lemma CanonicalTextIsPrinted(n: int, s: string)
    requires Canonical(s) && ReadInt(s) == Some(n)
    ensures s == PrintInt(n)
  {
    if s[0] == '-' {
      CanonicalIsPrinted(s[1..]);
      NegativeText(ReadNat(s[1..]).value, s);
    } else {
      CanonicalIsPrinted(s);
    }
  }

  lemma NegativeText(n: nat, s: string)
    requires n > 0 && s != [] && s[0] == '-' && s[1..] == PrintNat(n)
    ensures s == PrintInt(-(n as int))
  {
    assert s == "-" + s[1..];
  }

  lemma ReadPrintInt(n: int)
    ensures ReadInt(PrintInt(n)) == Some(n)
    ensures Clean(PrintInt(n))
  {
    PrintedIsCanonical(n);
  }

  // Splitting

  // Free of the characters that structure a data source name.
  predicate Clean(s: string) {
    '?' !in s && '&' !in s && '=' !in s
  }

  lemma {:induction false} SplitFirst(s: string, separator: char, rest: string)
    requires separator !in s
    ensures Split(s + [separator] + rest, separator) == [s] + Split(rest, separator)
  {
    var whole := s + [separator] + rest;
    if s == [] {
      assert whole[1..] == rest;
    } else {
      assert whole[1..] == s[1..] + [separator] + rest;
      SplitFirst(s[1..], separator, rest);
      assert [s[0]] + s[1..] == s;
    }
  }

  lemma {:induction false} SplitNothing(s: string, separator: char)
    requires separator !in s
    ensures Split(s, separator) == [s]
  {
    if s != [] {
      SplitNothing(s[1..], separator);
      assert [s[0]] + s[1..] == s;
    }
  }

  lemma {:induction false} LastIndexAfter(a: string, c: char, b: string)
    requires c !in b
    ensures LastIndex(a + [c] + b, c) == |a|
  {
    var whole := a + [c] + b;
    if b != [] {
      assert whole[..|whole| - 1] == a + [c] + b[..|b| - 1];
      assert whole[|whole| - 1] == b[|b| - 1];
      LastIndexAfter(a, c, b[..|b| - 1]);
    }
  }

  // Query strings in general: key=value pairs joined by &

  function Pair(key: string, value: string): string {
    key + "=" + value
  }

  ghost predicate SameLength(a: List, b: List) {
    match a
    case Nil => b.Nil?
    case Cons(_, rest) => b.Cons? && SameLength(rest, b.tail)
  }

  ghost predicate AllClean(list: List) {
    match list
    case Nil => true
    case Cons(s, rest) => Clean(s) && AllClean(rest)
  }

  function Query(keys: List, values: List): string
    requires keys.Cons? && SameLength(keys, values)
  {
    var pair := Pair(keys.head, values.head);
    if keys.tail.Nil? then pair else pair + ['&'] + Query(keys.tail, values.tail)
  }

  lemma PairIsClean(key: string, value: string)
    requires Clean(key) && Clean(value)
    ensures '&' !in Pair(key, value) && '?' !in Pair(key, value)
    ensures Split(Pair(key, value), '=') == [key, value]
  {
    SplitFirst(key, '=', value);
    SplitNothing(value, '=');
  }

  // A query string of clean keys and values is read back exactly, and contains no question mark.
  lemma {:induction false} ValuesOfQuery(keys: List, values: List)
    requires keys.Cons? && SameLength(keys, values) && AllClean(keys) && AllClean(values)
    ensures Values(Split(Query(keys, values), '&'), keys) == Some(values)
    ensures '?' !in Query(keys, values)
  {
    var pair := Pair(keys.head, values.head);
    PairIsClean(keys.head, values.head);
    if keys.tail.Nil? {
      SplitNothing(pair, '&');
    } else {
      ValuesOfQuery(keys.tail, values.tail);
      var rest := Query(keys.tail, values.tail);
      SplitFirst(pair, '&', rest);
      assert ([pair] + Split(rest, '&'))[1..] == Split(rest, '&');
    }
  }

  // Round trip

  function Settings(cfg: SQLiteConfig): List {
    Seven(cfg.journalMode, cfg.synchronous, PrintInt(cfg.cacheSize), if cfg.foreignKeys then "ON" else "OFF",
          PrintInt(cfg.busyTimeout), cfg.tempStore, PrintInt(cfg.mmapSize))
  }

  predicate CleanSettings(cfg: SQLiteConfig) {
    Clean(cfg.journalMode) && Clean(cfg.synchronous) && Clean(cfg.tempStore)
  }

  lemma SevenAreClean(a: string, b: string, c: string, d: string, e: string, f: string, g: string)
    requires Clean(a) && Clean(b) && Clean(c) && Clean(d) && Clean(e) && Clean(f) && Clean(g)
    ensures AllClean(Seven(a, b, c, d, e, f, g))
  {
    assert AllClean(Cons(g, Nil));
    assert AllClean(Cons(e, Cons(f, Cons(g, Nil))));
    assert AllClean(Cons(c, Cons(d, Cons(e, Cons(f, Cons(g, Nil))))));
  }

  lemma KeysAreClean()
    ensures AllClean(KEYS)
  {
    assert Clean("_journal_mode");
    assert Clean("_synchronous");
    assert Clean("_cache_size");
    assert Clean("_foreign_keys");
    assert Clean("_busy_timeout");
    assert Clean("_temp_store");
    assert Clean("_mmap_size");
    SevenAreClean("_journal_mode", "_synchronous", "_cache_size", "_foreign_keys", "_busy_timeout", "_temp_store",
                  "_mmap_size");
  }

  // Appending a labelled value is appending a separator and a pair.
  lemma Labelled(text: string, tag: string, separator: char, key: string, value: string)
    requires tag == [separator] + key + ['=']
    ensures text + tag + value == text + [separator] + Pair(key, value)
  {
  }

  lemma Regroup(text: string, pair: string, rest: string)
    ensures (text + pair) + ['&'] + rest == text + (pair + ['&'] + rest)
  {
  }

  lemma Labels()
    ensures "?_journal_mode=" == ['?'] + "_journal_mode" + ['=']
    ensures "&_synchronous=" == ['&'] + "_synchronous" + ['=']
    ensures "&_cache_size=" == ['&'] + "_cache_size" + ['=']
    ensures "&_foreign_keys=" == ['&'] + "_foreign_keys" + ['=']
    ensures "&_busy_timeout=" == ['&'] + "_busy_timeout" + ['=']
    ensures "&_temp_store=" == ['&'] + "_temp_store" + ['=']
    ensures "&_mmap_size=" == ['&'] + "_mmap_size" + ['=']
  {
  }

  // Seven pairs, appended one after another, are the first pair's text followed by the query.
  lemma {:induction false} AppendedPairs(text: string, keys: List, values: List)
    requires keys.Cons? && SameLength(keys, values)
    ensures Appended(text + Pair(keys.head, values.head), keys.tail, values.tail) == text + Query(keys, values)
    decreases keys
  {
    if keys.tail.Cons? {
      var pair, next := Pair(keys.head, values.head), text + Pair(keys.head, values.head) + ['&'];
      AppendedPairs(next, keys.tail, values.tail);
      Regroup(text, pair, Query(keys.tail, values.tail));
    }
  }

  function Appended(text: string, keys: List, values: List): string
    requires SameLength(keys, values)
    decreases keys
  {
    match keys
    case Nil => text
    case Cons(key, rest) => Appended(text + ['&'] + Pair(key, values.head), rest, values.tail)
  }

  lemma DsnIsQuery(dbPath: string, cfg: SQLiteConfig)
    ensures SameLength(KEYS, Settings(cfg))
    ensures BuildSQLiteDSN(dbPath, cfg) == dbPath + ['?'] + Query(KEYS, Settings(cfg))
  {
    Labels();
    AppendSeven(dbPath, cfg.journalMode, cfg.synchronous, PrintInt(cfg.cacheSize),
                if cfg.foreignKeys then "ON" else "OFF", PrintInt(cfg.busyTimeout), cfg.tempStore,
                PrintInt(cfg.mmapSize));
    AppendedPairs(dbPath + ['?'], KEYS, Settings(cfg));
  }

  lemma AppendSeven(dbPath: string, a: string, b: string, c: string, d: string, e: string, f: string, g: string)
    ensures SameLength(KEYS, Seven(a, b, c, d, e, f, g))
    ensures dbPath + "?_journal_mode=" + a + "&_synchronous=" + b + "&_cache_size=" + c + "&_foreign_keys=" + d
            + "&_busy_timeout=" + e + "&_temp_store=" + f + "&_mmap_size=" + g
         == Appended(dbPath + ['?'] + Pair("_journal_mode", a), KEYS.tail, Seven(a, b, c, d, e, f, g).tail)
  {
    Labels();
    var s0 := dbPath + "?_journal_mode=" + a;
    Labelled(dbPath, "?_journal_mode=", '?', "_journal_mode", a);
    var s1 := s0 + "&_synchronous=" + b;
    Labelled(s0, "&_synchronous=", '&', "_synchronous", b);
    var s2 := s1 + "&_cache_size=" + c;
    Labelled(s1, "&_cache_size=", '&', "_cache_size", c);
    var s3 := s2 + "&_foreign_keys=" + d;
    Labelled(s2, "&_foreign_keys=", '&', "_foreign_keys", d);
    var s4 := s3 + "&_busy_timeout=" + e;
    Labelled(s3, "&_busy_timeout=", '&', "_busy_timeout", e);
    var s5 := s4 + "&_temp_store=" + f;
    Labelled(s4, "&_temp_store=", '&', "_temp_store", f);
    var s6 := s5 + "&_mmap_size=" + g;
    Labelled(s5, "&_mmap_size=", '&', "_mmap_size", g);
    AppendedStep(s5, "_mmap_size", g, Nil, Nil);
    AppendedStep(s4, "_temp_store", f, Cons("_mmap_size", Nil), Cons(g, Nil));
    AppendedStep(s3, "_busy_timeout", e, KEYS.tail.tail.tail.tail.tail, Cons(f, Cons(g, Nil)));
    AppendedStep(s2, "_foreign_keys", d, KEYS.tail.tail.tail.tail, Cons(e, Cons(f, Cons(g, Nil))));
    AppendedStep(s1, "_cache_size", c, KEYS.tail.tail.tail, Cons(d, Cons(e, Cons(f, Cons(g, Nil)))));
    AppendedStep(s0, "_synchronous", b, KEYS.tail.tail, Cons(c, Cons(d, Cons(e, Cons(f, Cons(g, Nil))))));
  }

  lemma AppendedStep(text: string, key: string, value: string, keys: List, values: List)
    requires SameLength(keys, values)
    ensures Appended(text, Cons(key, keys), Cons(value, values))
         == Appended(text + ['&'] + Pair(key, value), keys, values)
  {
  }

  lemma ReadBuiltDSN(dbPath: string, cfg: SQLiteConfig)
    requires CleanSettings(cfg)
    ensures ReadDSN(BuildSQLiteDSN(dbPath, cfg)) == Some((dbPath, cfg))
  {
    DsnIsQuery(dbPath, cfg);
    SettingsAreRead(cfg);
    var query := Query(KEYS, Settings(cfg));
    LastIndexAfter(dbPath, '?', query);
    var dsn := dbPath + ['?'] + query;
    assert dsn[|dbPath| + 1..] == query;
    assert dsn[..|dbPath|] == dbPath;
    ReadSettings(cfg);
  }

  lemma ReadSettings(cfg: SQLiteConfig)
    ensures ReadConfig(Settings(cfg)) == Some(cfg)
  {
    ReadPrintInt(cfg.cacheSize);
    ReadPrintInt(cfg.busyTimeout);
    ReadPrintInt(cfg.mmapSize);
  }

  lemma SettingsAreRead(cfg: SQLiteConfig)
    requires CleanSettings(cfg) && SameLength(KEYS, Settings(cfg))
    ensures Values(Split(Query(KEYS, Settings(cfg)), '&'), KEYS) == Some(Settings(cfg))
    ensures '?' !in Query(KEYS, Settings(cfg))
  {
    ReadPrintInt(cfg.cacheSize);
    ReadPrintInt(cfg.busyTimeout);
    ReadPrintInt(cfg.mmapSize);
    KeysAreClean();
    var foreignKeys := if cfg.foreignKeys then "ON" else "OFF";
    SevenAreClean(cfg.journalMode, cfg.synchronous, PrintInt(cfg.cacheSize), foreignKeys,
                  PrintInt(cfg.busyTimeout), cfg.tempStore, PrintInt(cfg.mmapSize));
    ValuesOfQuery(KEYS, Settings(cfg));
  }

  lemma TempStoresAreClean(s: string)
    requires s in TEMP_STORES
    ensures Clean(s)
  {
    assert Clean("MEMORY") && Clean("FILE") && Clean("DEFAULT");
  }

  lemma SynchronousIsClean(s: string)
    requires s in SYNCHRONOUS
    ensures Clean(s)
  {
    assert Clean("OFF") && Clean("NORMAL") && Clean("FULL") && Clean("EXTRA");
  }

  lemma JournalModesAreClean(s: string)
    requires s in JOURNAL_MODES
    ensures Clean(s)
  {
    assert Clean("DELETE") && Clean("TRUNCATE") && Clean("PERSIST");
    assert Clean("MEMORY") && Clean("WAL") && Clean("OFF");
  }

  // What is read back is clean, whatever the text was

  lemma {:induction false} PartsAreClean(s: string, separator: char, c: char)
    ensures forall part :: part in Split(s, separator) ==> separator !in part && (c !in s ==> c !in part)
  {
    if s != [] {
      PartsAreClean(s[1..], separator, c);
      assert s == [s[0]] + s[1..];
    }
  }

  lemma {:induction false} ValuesAreClean(parts: seq<string>, keys: List)
    requires forall part :: part in parts ==> '&' !in part && '?' !in part
    ensures Values(parts, keys).Some? ==> AllClean(Values(parts, keys).value)
  {
    if keys.Cons? && parts != [] {
      PartsAreClean(parts[0], '=', '&');
      PartsAreClean(parts[0], '=', '?');
      ValuesAreClean(parts[1..], keys.tail);
    }
  }

  lemma {:induction false} NoneAfterLast(s: string, c: char)
    ensures forall i :: LastIndex(s, c) < i < |s| ==> s[i] != c
  {
    if s != [] && s[|s| - 1] != c {
      NoneAfterLast(s[..|s| - 1], c);
    }
  }

  lemma WhatIsReadIsClean(dsn: string)
    ensures ReadDSN(dsn).Some? ==> CleanSettings(ReadDSN(dsn).value.1)
  {
    var query := dsn[LastIndex(dsn, '?') + 1..];
    NoneAfterLast(dsn, '?');
    PartsAreClean(query, '&', '?');
    ValuesAreClean(Split(query, '&'), KEYS);
    if ReadDSN(dsn).Some? {
      var list := Values(Split(query, '&'), KEYS).value;
      HeadsAreClean(list);
      HeadsAreClean(list.tail.tail.tail);
    }
  }

  lemma HeadsAreClean(list: List)
    requires AllClean(list) && list.Cons? && list.tail.Cons? && list.tail.tail.Cons?
    ensures Clean(list.head) && Clean(list.tail.head) && Clean(list.tail.tail.head)
    ensures AllClean(list.tail.tail.tail)
  {
    assert AllClean(list.tail);
    assert AllClean(list.tail.tail);
  }

  // A path and its settings can be read back from the data source name exactly if the three settings
  // that are free text contain no question mark, ampersand or equals sign.
  lemma RoundTripIffClean(dbPath: string, cfg: SQLiteConfig)
    ensures ReadDSN(BuildSQLiteDSN(dbPath, cfg)) == Some((dbPath, cfg)) <==> CleanSettings(cfg)
  {
    if CleanSettings(cfg) {
      ReadBuiltDSN(dbPath, cfg);
    } else {
      WhatIsReadIsClean(BuildSQLiteDSN(dbPath, cfg));
    }
  }

  lemma AcceptedIsClean(cfg: Configuration)
    requires Validate(cfg).Accepted?
    ensures CleanSettings(cfg.sqlite)
  {
    TempStoresAreClean(cfg.sqlite.tempStore);
    SynchronousIsClean(cfg.sqlite.synchronous);
    JournalModesAreClean(cfg.sqlite.journalMode);
  }

  // For every path and every accepted configuration, the path and all seven settings can be read back
  // from the data source name.
  lemma ValidatedRoundTrip(dbPath: string, cfg: Configuration)
    requires Validate(cfg).Accepted?
    ensures ReadDSN(BuildSQLiteDSN(dbPath, cfg.sqlite)) == Some((dbPath, cfg.sqlite))
  {
    AcceptedIsClean(cfg);
    ReadBuiltDSN(dbPath, cfg.sqlite);
  }

  // No two paths or clean settings share a data source name; those of accepted configurations are clean.
  lemma Injective(dbPath: string, cfg: SQLiteConfig, dbPath': string, cfg': SQLiteConfig)
    requires CleanSettings(cfg) && CleanSettings(cfg')
    requires BuildSQLiteDSN(dbPath, cfg) == BuildSQLiteDSN(dbPath', cfg')
    ensures dbPath == dbPath' && cfg == cfg'
  {
    ReadBuiltDSN(dbPath, cfg);
    ReadBuiltDSN(dbPath', cfg');
  }

  // The name of the default configuration.
  lemma DefaultName(dbPath: string)
    ensures BuildSQLiteDSN(dbPath, DEFAULTS.sqlite)
         == dbPath + "?_journal_mode=" + "WAL" + "&_synchronous=" + "NORMAL" + "&_cache_size=" + "50000"
            + "&_foreign_keys=" + "ON" + "&_busy_timeout=" + "30000" + "&_temp_store=" + "MEMORY"
            + "&_mmap_size=" + "268435456"
  {
    DefaultNumerals();
  }

  lemma DefaultNumerals()
    ensures PrintInt(50000) == "50000" && PrintInt(30000) == "30000" && PrintInt(268435456) == "268435456"
  {
    assert PrintNat(50) == "50" && PrintNat(30) == "30" && PrintNat(26) == "26";
    assert PrintNat(500) == PrintNat(50) + "0" && PrintNat(300) == PrintNat(30) + "0";
    assert PrintNat(5000) == PrintNat(500) + "0" && PrintNat(3000) == PrintNat(300) + "0";
    assert PrintNat(268) == PrintNat(26) + "8" && PrintNat(2684) == PrintNat(268) + "4";
    assert PrintNat(26843) == PrintNat(2684) + "3" && PrintNat(268435) == PrintNat(26843) + "5";
    assert PrintNat(2684354) == PrintNat(268435) + "4" && PrintNat(26843545) == PrintNat(2684354) + "5";
  }

  // Without validation two configurations can share one.
  lemma AmbiguousWithoutValidation(dbPath: string, cfg: SQLiteConfig)
    ensures var a := cfg.(journalMode := "A&_synchronous=B", synchronous := "C");
            var b := cfg.(journalMode := "A", synchronous := "B&_synchronous=C");
            a != b && BuildSQLiteDSN(dbPath, a) == BuildSQLiteDSN(dbPath, b)
  {
    var start := dbPath + "?_journal_mode=";
    Associate(start, "A&_synchronous=B", "&_synchronous=", "C");
    Associate(start, "A", "&_synchronous=", "B&_synchronous=C");
    assert "A&_synchronous=B" + "&_synchronous=" + "C" == "A" + "&_synchronous=" + "B&_synchronous=C";
    assert "A&_synchronous=B" != "A" by {
      assert |"A&_synchronous=B"| != |"A"|;
    }
  }

  lemma Associate(text: string, a: string, b: string, c: string)
    ensures text + a + b + c == text + (a + b + c)
  {
  }
}
