/** The configuration logic of the service's entry module `app/main.py`: the settings
    record and its defaults, loading it from the environment, the effective CORS origin
    list derived from `ALLOWED_ORIGINS`, the results directory derived from
    `RESULTS_CSV` together with the path of the startup probe file inside it, and the
    JSON object served by `GET /config`. */
module AppMain {
  import opened PyStr
  import opened PosixPath

  datatype Option<T> = None | Some(value: T)

  /** A setting's value: what `/config` puts in its JSON object, and what the settings
      loader receives for a variable once it has been converted to a Python value. */
  datatype Value = Str(s: string) | Int(i: int) | Float(x: real)

  /** The eight settings, in the order of their declaration. */
  datatype Settings = Settings(
    ollamaBaseUrl: string,
    resultsCsv: string,
    defaultNumCtx: int,
    defaultNumPredict: int,
    defaultTemperature: real,
    gpuVramGb: int,
    maxEstVramUtil: real,
    allowedOrigins: string)

  /** The values declared in the settings class, used for every variable that is not set. */
  const Defaults := Settings(
    "http://host.docker.internal:11434",
    "/app/results/benchmark.csv",
    2048,
    256,
    0.0,
    8,
    0.8,
    "*")

  /** The eight settings, named. */
  datatype Name =
    | OllamaBaseUrl | ResultsCsv | DefaultNumCtx | DefaultNumPredict
    | DefaultTemperature | GpuVramGb | MaxEstVramUtil | AllowedOrigins

  /** The names in the order of their declaration. */
  const Names: seq<Name> := [
    OllamaBaseUrl, ResultsCsv, DefaultNumCtx, DefaultNumPredict,
    DefaultTemperature, GpuVramGb, MaxEstVramUtil, AllowedOrigins]

  /** The environment variable that sets a setting, which is also its key in `/config`. */
  function Key(n: Name): string {
    match n
    case OllamaBaseUrl => "OLLAMA_BASE_URL"
    case ResultsCsv => "RESULTS_CSV"
    case DefaultNumCtx => "DEFAULT_NUM_CTX"
    case DefaultNumPredict => "DEFAULT_NUM_PREDICT"
    case DefaultTemperature => "DEFAULT_TEMPERATURE"
    case GpuVramGb => "GPU_VRAM_GB"
    case MaxEstVramUtil => "MAX_EST_VRAM_UTIL"
    case AllowedOrigins => "ALLOWED_ORIGINS"
  }

  /** No two settings share a variable name. */
  lemma KeyInjective(n: Name, m: Name)
    ensures Key(n) == Key(m) ==> n == m
  {
  }

  /** The setting called `n`. */
  function Field(s: Settings, n: Name): Value {
    match n
    case OllamaBaseUrl => Str(s.ollamaBaseUrl)
    case ResultsCsv => Str(s.resultsCsv)
    case DefaultNumCtx => Int(s.defaultNumCtx)
    case DefaultNumPredict => Int(s.defaultNumPredict)
    case DefaultTemperature => Float(s.defaultTemperature)
    case GpuVramGb => Int(s.gpuVramGb)
    case MaxEstVramUtil => Float(s.maxEstVramUtil)
    case AllowedOrigins => Str(s.allowedOrigins)
  }

  /** Both values are of the same type (string, integer or float). */
  predicate SameType(v: Value, w: Value) {
    (v.Str? && w.Str?) || (v.Int? && w.Int?) || (v.Float? && w.Float?)
  }

  // ---------------------------------------------------------------------------------
  // Loading the settings
  // ---------------------------------------------------------------------------------

  function StrSetting(env: map<Name, Value>, n: Name, default: string): Option<string> {
    if n !in env then Some(default)
    else if env[n].Str? then Some(env[n].s)
    else None
  }

  function IntSetting(env: map<Name, Value>, n: Name, default: int): Option<int> {
    if n !in env then Some(default)
    else if env[n].Int? then Some(env[n].i)
    else None
  }

  function FloatSetting(env: map<Name, Value>, n: Name, default: real): Option<real> {
    if n !in env then Some(default)
    else if env[n].Float? then Some(env[n].x)
    else None
  }

  /** `Settings()`: `env` holds the variables among the eight that are set, each already
      converted to a Python value. Every setting takes the environment's value when its
      variable is set and its declared default otherwise; a value that is not of the
      setting's type makes loading fail, and the process does not start. */
  function Load(env: map<Name, Value>): (r: Option<Settings>)
    ensures r.Some? <==> forall n | n in env :: SameType(env[n], Field(Defaults, n))
    ensures r.Some? ==> forall n: Name ::
      Field(r.value, n) == if n in env then env[n] else Field(Defaults, n)
  {
    var url := StrSetting(env, OllamaBaseUrl, Defaults.ollamaBaseUrl);
    var csv := StrSetting(env, ResultsCsv, Defaults.resultsCsv);
    var ctx := IntSetting(env, DefaultNumCtx, Defaults.defaultNumCtx);
    var predict := IntSetting(env, DefaultNumPredict, Defaults.defaultNumPredict);
    var temperature := FloatSetting(env, DefaultTemperature, Defaults.defaultTemperature);
    var vram := IntSetting(env, GpuVramGb, Defaults.gpuVramGb);
    var util := FloatSetting(env, MaxEstVramUtil, Defaults.maxEstVramUtil);
    var origins := StrSetting(env, AllowedOrigins, Defaults.allowedOrigins);
    if url.None? || csv.None? || ctx.None? || predict.None? || temperature.None?
       || vram.None? || util.None? || origins.None?
    then None
    else Some(Settings(url.value, csv.value, ctx.value, predict.value, temperature.value,
                       vram.value, util.value, origins.value))
  }

  /** With no variable set, the settings are the declared defaults. */
  lemma LoadEmptyEnvironment()
    ensures Load(map[]) == Some(Defaults)
  {
  }

  // ---------------------------------------------------------------------------------
  // The effective CORS origin list
  // ---------------------------------------------------------------------------------

  /** `[o.strip() for o in pieces if o.strip()]`: the stripped pieces, in order, with
      the ones that strip to nothing left out. */
  function KeepStripped(pieces: seq<string>): (r: seq<string>)
    ensures |r| <= |pieces|
    ensures forall i | 0 <= i < |r| :: Trimmed(r[i])
  {
    if pieces == [] then []
    else
      var o := Strip(pieces[0]);
      (if o == [] then [] else [o]) + KeepStripped(pieces[1..])
  }

  lemma {:induction false} KeepStrippedAppend(xs: seq<string>, ys: seq<string>)
    ensures KeepStripped(xs + ys) == KeepStripped(xs) + KeepStripped(ys)
  {
    if xs != [] {
      assert (xs + ys)[0] == xs[0] && (xs + ys)[1..] == xs[1..] + ys;
      KeepStrippedAppend(xs[1..], ys);
    } else {
      assert xs + ys == ys;
    }
  }

  lemma {:induction false} KeepStrippedAvoids(pieces: seq<string>, c: char)
    requires forall j | 0 <= j < |pieces| :: c !in pieces[j]
    ensures forall i | 0 <= i < |KeepStripped(pieces)| :: c !in KeepStripped(pieces)[i]
  {
    if pieces != [] {
      StripAvoids(pieces[0], c);
      KeepStrippedAvoids(pieces[1..], c);
    }
  }

  /** An entry with no whitespace at either end, and not empty. */
  predicate Trimmed(x: string) {
    x != [] && !IsSpace(x[0]) && !IsSpace(x[|x| - 1])
  }

  /** An origin as the comprehension produces it: trimmed, and without a comma. */
  predicate Clean(x: string) {
    Trimmed(x) && ',' !in x
  }

  /** The list comprehension of the non-wildcard branch: `raw` split at every comma,
      each piece stripped of surrounding whitespace, empty pieces dropped. */
  function ParseOrigins(raw: string): (r: seq<string>)
    ensures forall i | 0 <= i < |r| :: Clean(r[i])
  {
    KeepStrippedAvoids(Split(raw, ','), ',');
    KeepStripped(Split(raw, ','))
  }

  /** No entry of the parsed list is empty, begins or ends with whitespace, or contains
      a comma, and there are at most as many entries as there are commas plus one. */
  lemma ParseOriginsClean(raw: string)
    ensures forall i | 0 <= i < |ParseOrigins(raw)| :: Clean(ParseOrigins(raw)[i])
    ensures |ParseOrigins(raw)| <= Count(raw, ',') + 1
  {
    SplitCount(raw, ',');
    KeepStrippedAvoids(Split(raw, ','), ',');
  }

  /** The entries before a comma come first, those after it follow: order and
      duplicates are kept. */
  lemma ParseOriginsAppend(a: string, b: string)
    ensures ParseOrigins(a + "," + b) == ParseOrigins(a) + ParseOrigins(b)
  {
    SplitAppend(a, b, ',');
    KeepStrippedAppend(Split(a, ','), Split(b, ','));
  }

  /** Text without a comma gives its stripped self, or nothing when it is blank. */
  lemma ParseOriginsSingle(s: string)
    requires ',' !in s
    ensures ParseOrigins(s) == if Strip(s) == [] then [] else [Strip(s)]
  {
    SplitNoSep(s, ',');
  }

  /** Every character is a comma or whitespace. */
  predicate OnlyCommasAndSpace(s: string) {
    forall i | 0 <= i < |s| :: s[i] == ',' || IsSpace(s[i])
  }

  lemma OnlyCommasAndSpaceAppend(a: string, b: string)
    ensures OnlyCommasAndSpace(a + "," + b) <==> OnlyCommasAndSpace(a) && OnlyCommasAndSpace(b)
  {
    var s := a + "," + b;
    if OnlyCommasAndSpace(a) && OnlyCommasAndSpace(b) {
      forall i | 0 <= i < |s| ensures s[i] == ',' || IsSpace(s[i]) {
        if i < |a| { assert s[i] == a[i]; }
        else if i > |a| { assert s[i] == b[i - |a| - 1]; }
      }
    }
    if OnlyCommasAndSpace(s) {
      forall i | 0 <= i < |a| ensures a[i] == ',' || IsSpace(a[i]) { assert s[i] == a[i]; }
      forall i | 0 <= i < |b| ensures b[i] == ',' || IsSpace(b[i]) { assert s[|a| + 1 + i] == b[i]; }
    }
  }

  /** The comprehension yields no origin at all exactly when the text consists of
      commas and whitespace only. */
  lemma {:induction false} ParseOriginsEmptyIff(raw: string)
    ensures ParseOrigins(raw) == [] <==> OnlyCommasAndSpace(raw)
    decreases |raw|
  {
    if ',' in raw {
      var k :| 0 <= k < |raw| && raw[k] == ',';
      var a, b := raw[..k], raw[k + 1..];
      assert raw == a + "," + b;
      OnlyCommasAndSpaceAppend(a, b);
      ParseOriginsAppend(a, b);
      ParseOriginsEmptyIff(a);
      ParseOriginsEmptyIff(b);
    } else {
      ParseOriginsEmptyIffSingle(raw);
    }
  }

  lemma ParseOriginsEmptyIffSingle(raw: string)
    requires ',' !in raw
    ensures ParseOrigins(raw) == [] <==> OnlyCommasAndSpace(raw)
  {
    ParseOriginsSingle(raw);
    StripEmptyIff(raw);
    assert OnlyCommasAndSpace(raw) <==> AllSpace(raw);
  }

  /** Whether `ALLOWED_ORIGINS` selects the allow-all policy: it is `None` (which a `str`
      setting never holds), empty, or exactly `*`, compared as it is, without stripping. */
  predicate IsWildcard(raw: Option<string>)
    ensures raw.Some? && |raw.value| > 1 ==> !IsWildcard(raw)
    ensures raw.Some? && |raw.value| == 1 ==> (IsWildcard(raw) <==> raw.value[0] == '*')
  {
    match raw
    case None => true
    case Some(v) =>
      assert |v| == 1 && v[0] == '*' ==> v == "*";
      v == "" || v == "*"
  }

  /** The origin list handed to the CORS middleware: `["*"]` for the wildcard values,
      otherwise the parsed comma-separated list, whose entries are all clean and at
      most one more than the commas. */
  function DeriveAllowOrigins(raw: Option<string>): (r: seq<string>)
    ensures IsWildcard(raw) ==> r == ["*"]
    ensures !IsWildcard(raw) ==> r == ParseOrigins(raw.value)
    ensures !IsWildcard(raw) ==> |r| <= Count(raw.value, ',') + 1
    ensures forall i | 0 <= i < |r| :: Clean(r[i])
  {
    if IsWildcard(raw) then ["*"]
    else
      ParseOriginsClean(raw.value);
      ParseOrigins(raw.value)
  }

  /** The origin list the service installs for its settings: every entry is clean
      (`*` included), and there is at most one more entry than there are commas. */
  function AllowOrigins(s: Settings): (r: seq<string>)
    ensures forall i | 0 <= i < |r| :: Clean(r[i])
    ensures |r| <= Count(s.allowedOrigins, ',') + 1
  {
    DeriveAllowOrigins(Some(s.allowedOrigins))
  }

  /** The default setting allows every origin. */
  lemma DefaultAllowsAll()
    ensures AllowOrigins(Defaults) == ["*"]
  {
  }

  /** Whitespace around a single entry is dropped. */
  lemma PaddedEntry(w1: string, x: string, w2: string)
    requires AllSpace(w1) && AllSpace(w2) && Clean(x)
    ensures ParseOrigins(w1 + x + w2) == [x]
  {
    var s := w1 + x + w2;
    assert ',' !in s by {
      BlankHasNoComma(w1);
      BlankHasNoComma(w2);
    }
    assert Strip(s) == x by { StripPadded(w1, x, w2); }
    ParseOriginsSingle(s);
  }

  lemma BlankHasNoComma(w: string)
    requires AllSpace(w)
    ensures ',' !in w
  {
  }

  /** A wildcard with surrounding blanks is not recognised as one, but the list it
      parses to is the same. */
  lemma PaddedWildcard(w1: string, w2: string)
    requires AllSpace(w1) && AllSpace(w2) && w1 + w2 != []
    ensures !IsWildcard(Some(w1 + "*" + w2))
    ensures DeriveAllowOrigins(Some(w1 + "*" + w2)) == ["*"]
  {
    assert |w1 + "*" + w2| > 1;
    PaddedEntry(w1, "*", w2);
  }

  /** A clean entry parses to itself. */
  lemma ParseOriginsEntry(x: string)
    requires Clean(x)
    ensures ParseOrigins(x) == [x]
  {
    StripTrimmed(x);
    ParseOriginsSingle(x);
  }

  /** A clean entry in front of a comma comes first, followed by the entries of the
      rest. */
  lemma LeadingEntry(x: string, rest: string)
    requires Clean(x)
    ensures ParseOrigins(x + "," + rest) == [x] + ParseOrigins(rest)
  {
    ParseOriginsAppend(x, rest);
    ParseOriginsEntry(x);
  }

  /** A `*` at the head of a longer list is kept as an ordinary entry, followed by the
      entries of the rest. */
  lemma WildcardInsideList(rest: string)
    ensures DeriveAllowOrigins(Some("*," + rest)) == ["*"] + ParseOrigins(rest)
  {
    var s := "*," + rest;
    assert !IsWildcard(Some(s)) by { assert |s| > 1; }
    assert s == "*" + "," + rest;
    LeadingEntry("*", rest);
  }

  /** Blank text yields no entry. */
  lemma ParseOriginsBlank(w: string)
    requires AllSpace(w)
    ensures ParseOrigins(w) == []
  {
    BlankHasNoComma(w);
    StripEmptyIff(w);
    ParseOriginsSingle(w);
  }

  /** Empty or blank entries, such as the one a trailing comma leaves, are dropped. */
  lemma TrailingCommaIgnored(raw: string, w: string)
    requires AllSpace(w)
    ensures ParseOrigins(raw + "," + w) == ParseOrigins(raw)
  {
    ParseOriginsAppend(raw, w);
    ParseOriginsBlank(w);
  }

  /** Duplicate entries are kept. */
  lemma DuplicatesKept(x: string)
    requires Clean(x)
    ensures ParseOrigins(x + "," + x) == [x, x]
  {
    LeadingEntry(x, x);
    ParseOriginsEntry(x);
  }

  /** A value made of commas and blanks only, but not empty, allows no origin. */
  lemma SeparatorsOnlyAllowNothing(raw: string)
    requires raw != [] && OnlyCommasAndSpace(raw)
    ensures DeriveAllowOrigins(Some(raw)) == []
  {
    assert raw != "*" by {
      assert raw[0] == ',' || IsSpace(raw[0]);
    }
    ParseOriginsEmptyIff(raw);
  }

  // ---------------------------------------------------------------------------------
  // The results directory
  // ---------------------------------------------------------------------------------

  /** The directory used when `RESULTS_CSV` has no directory part. */
  const FallbackResultsDir := "/app/results"

  /** `os.path.dirname(RESULTS_CSV) or "/app/results"`: never empty; the fallback when
      the path has no `/`, otherwise a prefix of the path. */
  function ResultsDir(resultsCsv: string): (d: string)
    ensures d != []
    ensures '/' !in resultsCsv ==> d == FallbackResultsDir
    ensures '/' in resultsCsv ==> |d| <= |resultsCsv| && d == resultsCsv[..|d|]
    ensures '/' in resultsCsv ==> d == Dirname(resultsCsv)
    ensures AllSlashes(d) || d[|d| - 1] != '/'
  {
    var d := Dirname(resultsCsv);
    if d == [] then FallbackResultsDir else d
  }

  /** The default results path is `benchmark.csv` joined onto the fallback directory. */
  lemma DefaultCsvIsJoin()
    ensures Defaults.resultsCsv == Join(FallbackResultsDir, "benchmark.csv")
  {
  }

  /** Any file named directly under `/app/results`, the default path among them, has
      `/app/results` as its results directory. */
  lemma FileInFallback(name: string)
    requires '/' !in name
    ensures ResultsDir(Join(FallbackResultsDir, name)) == FallbackResultsDir
  {
    DirnameJoin(FallbackResultsDir, name);
  }

  /** `os.path.join(results_dir, ".write_test")`: the probe file written at startup,
      which lies in the results directory. */
  function ProbeFile(resultsCsv: string): (f: string)
    ensures Dirname(f) == ResultsDir(resultsCsv)
  {
    DirnameJoin(ResultsDir(resultsCsv), ".write_test");
    Join(ResultsDir(resultsCsv), ".write_test")
  }

  // ---------------------------------------------------------------------------------
  // GET /config
  // ---------------------------------------------------------------------------------

  /** The JSON object returned by `GET /config`, as its key/value pairs in order: the
      eight variable names in declaration order, each with its setting's value. */
  function Config(s: Settings): (r: seq<(string, Value)>)
    ensures |r| == |Names|
    ensures forall i | 0 <= i < |r| :: r[i] == (Key(Names[i]), Field(s, Names[i]))
  {
    [ ("OLLAMA_BASE_URL", Str(s.ollamaBaseUrl)),
      ("RESULTS_CSV", Str(s.resultsCsv)),
      ("DEFAULT_NUM_CTX", Int(s.defaultNumCtx)),
      ("DEFAULT_NUM_PREDICT", Int(s.defaultNumPredict)),
      ("DEFAULT_TEMPERATURE", Float(s.defaultTemperature)),
      ("GPU_VRAM_GB", Int(s.gpuVramGb)),
      ("MAX_EST_VRAM_UTIL", Float(s.maxEstVramUtil)),
      ("ALLOWED_ORIGINS", Str(s.allowedOrigins)) ]
  }

  /** The value a JSON object gives for `key`, read from its pairs. Taking the first
      pair with that key is a choice of this model (a Python dict literal keeps the
      last); `/config` has no repeated key, so the choice does not matter there. */
  function Lookup(obj: seq<(string, Value)>, key: string): Option<Value> {
    if obj == [] then None
    else if obj[0].0 == key then Some(obj[0].1)
    else Lookup(obj[1..], key)
  }

  /** The position of each setting in the declaration order. */
  function Index(n: Name): (i: nat)
    ensures i < |Names| && Names[i] == n
  {
    match n
    case OllamaBaseUrl => 0
    case ResultsCsv => 1
    case DefaultNumCtx => 2
    case DefaultNumPredict => 3
    case DefaultTemperature => 4
    case GpuVramGb => 5
    case MaxEstVramUtil => 6
    case AllowedOrigins => 7
  }

  /** A key found at position `i` and at no earlier position yields the value there. */
  lemma {:induction false} LookupAt(obj: seq<(string, Value)>, key: string, i: nat)
    requires i < |obj| && obj[i].0 == key
    requires forall j | 0 <= j < i :: obj[j].0 != key
    ensures Lookup(obj, key) == Some(obj[i].1)
  {
    if i > 0 {
      LookupAt(obj[1..], key, i - 1);
    }
  }

  /** `/config` has the eight variable names as keys, no key twice, and under each key
      the value of that setting. */
  lemma ConfigByKey(s: Settings)
    ensures forall n: Name :: Lookup(Config(s), Key(n)) == Some(Field(s, n))
    ensures forall i, j | 0 <= i < j < |Config(s)| :: Config(s)[i].0 != Config(s)[j].0
  {
    var obj := Config(s);
    forall i, j | 0 <= i < j < |obj| ensures obj[i].0 != obj[j].0 {
      KeyInjective(Names[i], Names[j]);
    }
    forall n: Name ensures Lookup(obj, Key(n)) == Some(Field(s, n)) {
      LookupAt(obj, Key(n), Index(n));
    }
  }

  /** `/config` loses nothing: two settings records with the same `/config` object are
      the same record. */
  lemma ConfigInjective(s: Settings, t: Settings)
    requires Config(s) == Config(t)
    ensures s == t
  {
  }

  /** With no variable set, `/config` shows the declared defaults. */
  lemma DefaultConfig()
    ensures Load(map[]).Some?
    ensures Config(Load(map[]).value) == [
      ("OLLAMA_BASE_URL", Str("http://host.docker.internal:11434")),
      ("RESULTS_CSV", Str("/app/results/benchmark.csv")),
      ("DEFAULT_NUM_CTX", Int(2048)),
      ("DEFAULT_NUM_PREDICT", Int(256)),
      ("DEFAULT_TEMPERATURE", Float(0.0)),
      ("GPU_VRAM_GB", Int(8)),
      ("MAX_EST_VRAM_UTIL", Float(0.8)),
      ("ALLOWED_ORIGINS", Str("*")) ]
  {
  }
}
