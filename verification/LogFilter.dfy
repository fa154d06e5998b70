// The log filter: the adapter's configuration text compiled once into a priority
// and a bit mask, and consulted for every log entry.

module LogFilter {
  import opened Wrappers
  import opened Bytes
  import opened JsonScan
  import opened JsonString
  import opened JsonMembers
  import Envelope

  // Levels and categories as they are numbered on the wire.
  const TRACE: byte := 1
  const DEBUG: byte := 2
  const INFO: byte := 3
  const WARN: byte := 4
  const ERROR: byte := 5
  const CATEGORY_COUNT := 10
  const ENABLE_LOGS := 4

  function Priority(level: byte): nat {
    if TRACE <= level <= ERROR then level - 1 else 2
  }

  // ---- Reading names ----------------------------------------------------------------

  function Lower(s: bytes): bytes {
    seq(|s|, i requires 0 <= i < |s| => if 0x41 <= s[i] <= 0x5A then s[i] + 0x20 else s[i])
  }

  /** Drops `_`, `-`, space and dot. */
  function Squeeze(s: bytes): bytes {
    if s == [] then []
    else (if s[0] in {0x5F, 0x2D, 0x20, 0x2E} then [] else [s[0]]) + Squeeze(s[1..])
  }

  function NormalizeCategory(text: bytes): bytes {
    Squeeze(Lower(Trim(text)))
  }

  function LevelOf(text: bytes): Option<byte> {
    var value := Lower(Trim(text));
    if value == Ascii("trace") then Some(TRACE)
    else if value == Ascii("debug") then Some(DEBUG)
    else if value == Ascii("info") then Some(INFO)
    else if value == Ascii("warn") || value == Ascii("warning") then Some(WARN)
    else if value == Ascii("error") || value == Ascii("critical") then Some(ERROR)
    else None
  }

  function CategoryOf(text: bytes): (r: Option<byte>)
    ensures r.Some? ==> r.value < CATEGORY_COUNT
  {
    var value := NormalizeCategory(text);
    if value == Ascii("lifecycle") then Some(1)
    else if value == Ascii("discovery") then Some(2)
    else if value == Ascii("network") then Some(3)
    else if value == Ascii("protocol") then Some(4)
    else if value == Ascii("device") then Some(5)
    else if value == Ascii("config") then Some(6)
    else if value == Ascii("performance") then Some(7)
    else if value == Ascii("security") then Some(8)
    else if value == Ascii("database") || value == Ascii("db") then Some(9)
    else if value == Ascii("internal") then Some(0)
    else None
  }

  /** A string token's text, or nothing. */
  function TextOr(token: bytes): bytes {
    if token == [] then []
    else match DecodeString(token) case None => [] case Some(s) => s
  }

  predicate NamesAll(token: bytes) {
    TextOr(token) != [] && NormalizeCategory(TextOr(token)) == Ascii("all")
  }

  predicate NamesCategory(token: bytes, category: byte) {
    TextOr(token) != [] && !NamesAll(token) && CategoryOf(TextOr(token)) == Some(category)
  }

  // ---- The configuration read directly ------------------------------------------------

  // What the configuration says: a minimum level, and either every category or the
  // categories some item of the list names.
  datatype Reading = Reading(minLevel: byte, items: Option<seq<bytes>>)

  const DEFAULT_READING := Reading(DEBUG, None)

  /** The `logging` member of the metadata; anything unreadable means the default. */
  function Read(meta: bytes): Reading {
    if Trim(meta) == [] then DEFAULT_READING
    else
      match ParseObject(Trim(meta))
      case None => DEFAULT_READING
      case Some(m) =>
        var logging := Lookup(m, Ascii("logging"));
        if logging == [] then DEFAULT_READING else ReadLogging(logging)
  }

  function ReadLogging(logging: bytes): Reading {
    match ParseObject(logging)
    case None => DEFAULT_READING
    case Some(l) =>
      var level := LevelOf(TextOr(Lookup(l, Ascii("minLevel"))));
      var minLevel := if level.Some? then level.value else DEBUG;
      var list := Lookup(l, Ascii("categories"));
      if list == [] then Reading(minLevel, None)
      else if Envelope.ParseArray(list).None? then DEFAULT_READING
      else Reading(minLevel, Envelope.ParseArray(list))
  }

  predicate AllowsAll(items: Option<seq<bytes>>) {
    items.Some? ==> exists token :: token in items.value && NamesAll(token)
  }

  predicate AllowsCategory(items: Option<seq<bytes>>, category: byte) {
    items.Some? ==> exists token :: token in items.value && NamesCategory(token, category)
  }

  /** A level's number on the wire, from Trace, 1, to Error, 5; any other counts as Info, 3. */
  function Rank(level: byte): byte {
    if 1 <= level <= 5 then level else 3
  }

  /** The decision by direct reading of the level numbers; errors always pass. */
  ghost predicate Wanted(flags: nat, r: Reading, level: byte, category: byte) {
    level == 5
    || (flags / 4 % 2 == 1
        && Rank(level) >= Rank(r.minLevel)
        && (AllowsAll(r.items) || AllowsCategory(r.items, category)))
  }

  /** Priorities order levels as their numbers do. */
  lemma PriorityKeepsOrder(a: byte, b: byte)
    ensures Priority(a) <= Priority(b) <==> Rank(a) <= Rank(b)
  {
  }

  /** With forwarding on and every category allowed, the minimum level decides. */
  lemma LevelDecides(r: Reading, level: byte, category: byte)
    requires 1 <= level <= 4 && 1 <= r.minLevel <= 5 && AllowsAll(r.items)
    ensures Wanted(4, r, level, category) <==> level >= r.minLevel
  {
    hide AllowsAll, AllowsCategory;
  }

  /** Raising the level never turns a passing entry away. */
  lemma RaisingPasses(flags: nat, r: Reading, low: byte, high: byte, category: byte)
    requires 1 <= low <= high <= 5 && Wanted(flags, r, low, category)
    ensures Wanted(flags, r, high, category)
  {
    hide AllowsAll, AllowsCategory;
  }

  /** Without a readable configuration everything from Debug, 2, on passes, if logs are on. */
  lemma DefaultReading(meta: bytes, flags: nat, level: byte, category: byte)
    requires Trim(meta) == [] || ParseObject(Trim(meta)).None?
    ensures Wanted(flags, Read(meta), level, category) <==> level == 5 || (flags / 4 % 2 == 1 && level != 1)
  {
    hide Trim, ParseObject;
    assert AllowsAll(None);
  }

  // ---- The names ------------------------------------------------------------------------------

  const LEVEL_NAMES: set<(string, byte)> :=
    {("trace", 1), ("debug", 2), ("info", 3), ("warn", 4), ("warning", 4), ("error", 5), ("critical", 5)}

  const CATEGORY_NAMES: set<(string, byte)> :=
    {("internal", 0), ("lifecycle", 1), ("discovery", 2), ("network", 3), ("protocol", 4), ("device", 5),
     ("config", 6), ("performance", 7), ("security", 8), ("database", 9), ("db", 9)}

  lemma LevelByName(text: bytes, name: string, level: byte)
    requires (name, level) in LEVEL_NAMES && Lower(Trim(text)) == Ascii(name)
    ensures LevelOf(text) == Some(level)
  {
    hide Lower, Trim;
    var value := Lower(Trim(text));
    assert |value| == |name| && value[0] == name[0] as int % 256;
  }

  lemma OtherLevel(text: bytes)
    requires forall entry :: entry in LEVEL_NAMES ==> Lower(Trim(text)) != Ascii(entry.0)
    ensures LevelOf(text).None?
  {
    hide Lower, Trim, Ascii;
    var value := Lower(Trim(text));
    assert forall n, l :: (n, l) in LEVEL_NAMES ==> value != Ascii((n, l).0);
  }

  lemma CategoryByName(text: bytes, name: string, category: byte)
    requires (name, category) in CATEGORY_NAMES && NormalizeCategory(text) == Ascii(name)
    ensures CategoryOf(text) == Some(category)
  {
    hide NormalizeCategory;
    var value := NormalizeCategory(text);
    assert |value| == |name| && value[0] == name[0] as int % 256 && value[1] == name[1] as int % 256;
  }

  /** The same text but for the case of ASCII letters. */
  predicate SameButCase(a: bytes, b: bytes) {
    |a| == |b| && forall k :: 0 <= k < |a| ==>
      a[k] == b[k] || ('A' <= a[k] as char <= 'Z' && b[k] == a[k] + 32)
      || ('A' <= b[k] as char <= 'Z' && a[k] == b[k] + 32)
  }

  /** The case of letters does not matter, and nothing but their case is changed. */
  lemma CaseIsFree(a: bytes, b: bytes)
    ensures SameButCase(a, b) ==> Lower(a) == Lower(b)
    ensures SameButCase(a, Lower(a))
  {
  }

  /** Separators anywhere in a category name do not matter, and nothing else is dropped. */
  lemma {:induction false} SeparatorsAreFree(a: bytes, b: bytes, c: byte)
    ensures c as char in {'_', '-', ' ', '.'} ==> Squeeze(a + [c] + b) == Squeeze(a + b)
    ensures (forall k :: 0 <= k < |a| ==> a[k] as char !in {'_', '-', ' ', '.'}) ==> Squeeze(a) == a
    decreases |a|
  {
    if a == [] {
      assert [] + [c] + b == [c] + b && [] + b == b && ([c] + b)[1..] == b;
    } else {
      SeparatorsAreFree(a[1..], b, c);
      assert (a + [c] + b)[1..] == a[1..] + [c] + b && (a + b)[1..] == a[1..] + b;
      assert a == [a[0]] + a[1..];
    }
  }

  // ---- The compiled filter ---------------------------------------------------------------

  datatype Config = Config(minLevel: byte, allowAll: bool, allowed: seq<bool>)

  datatype Cache = Cache(hasConfig: bool, forwarding: bool, minPriority: nat, allowAll: bool, mask: bv16)

  const NO_CONFIG := Cache(false, false, 1, true, 0)

  function CategoryIndex(category: byte): int {
    if category < CATEGORY_COUNT then category else -1
  }

  function Bit(i: nat): bv16
    requires i < 16
  {
    (1 as bv16) << i
  }

  predicate TestBit(mask: bv16, i: nat)
    requires i < 16
  {
    Meets(mask, Bit(i))
  }

  predicate Meets(a: bv16, b: bv16) {
    a & b != 0
  }

  predicate ShouldForwardLog(cache: Cache, level: byte, category: byte) {
    if level == ERROR then true
    else if !cache.hasConfig then true
    else if !cache.forwarding then false
    else if Priority(level) < cache.minPriority then false
    else if cache.allowAll then true
    else
      var idx := CategoryIndex(category);
      if idx < 0 then false else TestBit(cache.mask, idx)
  }

  /** Until a configuration arrives, every entry passes. */
  lemma UnconfiguredPasses(level: byte, category: byte)
    ensures ShouldForwardLog(NO_CONFIG, level, category)
  {
  }

  const NONE_ALLOWED := [false, false, false, false, false, false, false, false, false, false]

  /** The category list, item by item; `all` ends it. */
  method CompileCategories(items: seq<bytes>) returns (allowAll: bool, allowed: seq<bool>)
    ensures |allowed| == CATEGORY_COUNT
    ensures allowAll == AllowsAll(Some(items))
    ensures !allowAll ==> forall c: byte :: c < CATEGORY_COUNT ==> allowed[c] == AllowsCategory(Some(items), c)
  {
    hide NamesAll, NamesCategory, NormalizeCategory, CategoryOf, DecodeString;
    allowAll := false;
    allowed := NONE_ALLOWED;
    for i := 0 to |items|
      invariant |allowed| == CATEGORY_COUNT
      invariant !AllowsAll(Some(items[..i]))
      invariant forall c: byte :: c < CATEGORY_COUNT ==> allowed[c] == AllowsCategory(Some(items[..i]), c)
    {
      SeenOneMore(items, i);
      var text := [];
      if items[i] != [] {
        var decoded := DecodeJsonString(items[i]);
        text := if decoded.Some? then decoded.value else [];
      }
      ItemMeaning(items[i]);
      if text == [] {
        continue;
      }
      if NormalizeCategory(text) == Ascii("all") {
        return true, allowed;
      }
      var category := CategoryOf(text);
      if category.None? {
        continue;
      }
      if CategoryIndex(category.value) >= 0 {
        allowed := allowed[category.value := true];
      }
    }
    assert items[..|items|] == items;
  }

  lemma SeenOneMore(items: seq<bytes>, i: nat)
    requires i < |items|
    ensures AllowsAll(Some(items[..i + 1])) <==> AllowsAll(Some(items[..i])) || NamesAll(items[i])
    ensures forall c: byte :: AllowsCategory(Some(items[..i + 1]), c) <==>
              AllowsCategory(Some(items[..i]), c) || NamesCategory(items[i], c)
    ensures NamesAll(items[i]) ==> AllowsAll(Some(items))
  {
    var a, b := items[..i], items[..i + 1];
    assert b == a + [items[i]];
    assert items[i] in b;
    assert forall t :: t in b <==> t in a || t == items[i];
  }

  lemma ItemMeaning(token: bytes)
    ensures NamesAll(token) <==> TextOr(token) != [] && NormalizeCategory(TextOr(token)) == Ascii("all")
    ensures forall c: byte :: NamesCategory(token, c) <==>
              TextOr(token) != [] && !NamesAll(token) && CategoryOf(TextOr(token)) == Some(c)
  {
  }

  method ParseLogFilterConfig(metaJson: bytes) returns (out: Config)
    ensures |out.allowed| == CATEGORY_COUNT
    ensures out.minLevel == Read(metaJson).minLevel
    ensures out.allowAll == AllowsAll(Read(metaJson).items)
    ensures !out.allowAll ==>
              forall c: byte :: c < CATEGORY_COUNT ==>
                out.allowed[c] == AllowsCategory(Read(metaJson).items, c)
  {
    hide ParseObject, DecodeString, LevelOf, Ascii, Envelope.ParseArray, AllowsCategory;
    out := Config(DEBUG, true, NONE_ALLOWED);
    var metaToken := TrimView(metaJson);
    if metaToken == [] {
      return;
    }
    var metaMap := new MemberMap();
    var ok := ParseObjectMembers(metaToken, metaMap);
    if !ok {
      return;
    }
    var loggingToken := metaMap.Value(Ascii("logging"));
    if loggingToken == [] {
      return;
    }
    out := ParseLogging(loggingToken);
  }

  method ParseLogging(loggingToken: bytes) returns (out: Config)
    ensures |out.allowed| == CATEGORY_COUNT
    ensures out.minLevel == ReadLogging(loggingToken).minLevel
    ensures out.allowAll == AllowsAll(ReadLogging(loggingToken).items)
    ensures !out.allowAll ==>
              forall c: byte :: c < CATEGORY_COUNT ==>
                out.allowed[c] == AllowsCategory(ReadLogging(loggingToken).items, c)
  {
    hide ParseObject, DecodeString, LevelOf, Ascii, Envelope.ParseArray, AllowsCategory;
    out := Config(DEBUG, true, NONE_ALLOWED);
    var loggingMap := new MemberMap();
    var ok := ParseObjectMembers(loggingToken, loggingMap);
    if !ok {
      return;
    }
    var levelToken := loggingMap.Value(Ascii("minLevel"));
    var level := LevelOf(TextOr(levelToken));
    var minLevel := if level.Some? then level.value else DEBUG;
    var categoriesToken := loggingMap.Value(Ascii("categories"));
    if categoriesToken == [] {
      return out.(minLevel := minLevel);
    }
    var categories := Envelope.ParseArrayElements(categoriesToken);
    if categories.None? {
      return;
    }
    var allowAll, allowed := CompileCategories(categories.value);
    out := Config(minLevel, allowAll, allowed);
  }

  /** The mask holds the flags of the first `n` categories and nothing else. */
  predicate MaskIs(mask: bv16, allowed: seq<bool>, n: nat)
    requires |allowed| == CATEGORY_COUNT
  {
    forall i: nat :: i < CATEGORY_COUNT ==> (TestBit(mask, i) <==> i < n && allowed[i])
  }

  lemma BitIs(i: nat)
    requires i < 16
    ensures Bit(i) == match i
      case 0 => 1 case 1 => 2 case 2 => 4 case 3 => 8 case 4 => 16 case 5 => 32 case 6 => 64 case 7 => 128
      case 8 => 256 case 9 => 512 case 10 => 1024 case 11 => 2048 case 12 => 4096 case 13 => 8192
      case 14 => 16384 case _ => 32768
  {
  }

  lemma BitsApart(i: nat, j: nat)
    requires i < 16 && j < 16
    ensures Meets(Bit(i), Bit(j)) <==> i == j
  {
    BitIs(i);
    BitIs(j);
    hide Bit;
  }

  lemma SetBit(mask: bv16, i: nat, j: nat)
    requires i < 16 && j < 16
    ensures TestBit(mask | Bit(i), j) <==> i == j || TestBit(mask, j)
  {
    BitsApart(i, j);
    hide Bit, Meets;
    MeetsEither(mask, Bit(i), Bit(j));
  }

  lemma MeetsEither(m: bv16, a: bv16, b: bv16)
    ensures Meets(m | a, b) <==> Meets(m, b) || Meets(a, b)
  {
    assert (m | a) & b == (m & b) | (a & b);
  }

  lemma MaskStep(mask: bv16, allowed: seq<bool>, i: nat)
    requires |allowed| == CATEGORY_COUNT && i < CATEGORY_COUNT && MaskIs(mask, allowed, i)
    ensures MaskIs(if allowed[i] then mask | Bit(i) else mask, allowed, i + 1)
  {
    hide TestBit, Bit;
    if allowed[i] {
      forall j: nat | j < CATEGORY_COUNT
        ensures TestBit(mask | Bit(i), j) <==> j < i + 1 && allowed[j]
      {
        SetBit(mask, i, j);
      }
    }
  }

  /** The compiled filter decides as the configuration reads, for every level and category. */
  predicate Compiled(cache: Cache, flags: nat, r: Reading) {
    && cache.hasConfig && cache.forwarding == (flags / ENABLE_LOGS % 2 == 1)
    && cache.minPriority == Priority(r.minLevel)
    && cache.allowAll == AllowsAll(r.items)
    && (!cache.allowAll ==>
          forall c: byte :: c < CATEGORY_COUNT ==> (TestBit(cache.mask, c) <==> AllowsCategory(r.items, c)))
  }

  lemma CompiledDecides(cache: Cache, flags: nat, r: Reading, level: byte, category: byte)
    requires Compiled(cache, flags, r)
    ensures ShouldForwardLog(cache, level, category) == Wanted(flags, r, level, category)
  {
    hide TestBit, NamesAll;
    if !cache.allowAll && category >= CATEGORY_COUNT {
      assert forall token :: !NamesCategory(token, category);
    }
  }

  method BuildLogFilterCache(flags: nat, metaJson: bytes) returns (cache: Cache)
    ensures cache.hasConfig
    ensures forall level: byte, category: byte ::
              ShouldForwardLog(cache, level, category) == Wanted(flags, Read(metaJson), level, category)
  {
    var filter := ParseLogFilterConfig(metaJson);
    var mask: bv16 := 0;
    assert MaskIs(mask, filter.allowed, 0);
    hide TestBit, Bit, Read, AllowsAll, AllowsCategory, ShouldForwardLog, Wanted;
    for i := 0 to CATEGORY_COUNT
      invariant MaskIs(mask, filter.allowed, i)
    {
      MaskStep(mask, filter.allowed, i);
      if filter.allowed[i] {
        mask := mask | Bit(i);
      }
    }
    cache := Cache(true, flags / ENABLE_LOGS % 2 == 1, Priority(filter.minLevel), filter.allowAll, mask);
    assert Compiled(cache, flags, Read(metaJson));
    forall level: byte, category: byte
      ensures ShouldForwardLog(cache, level, category) == Wanted(flags, Read(metaJson), level, category)
    {
      CompiledDecides(cache, flags, Read(metaJson), level, category);
    }
  }
}
