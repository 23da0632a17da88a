# Ollama benchmarking service: configuration logic

The service's entry module `app/main.py` reads eight settings from the environment and
derives three things from them:

- the list of origins given to the CORS middleware, from `ALLOWED_ORIGINS`;
- the results directory, from `RESULTS_CSV`, and the `.write_test` probe file inside it
  that is written at startup;
- the JSON object served by `GET /config`.

This project models that logic as pure Dafny functions and proves what it promises.
The model has three modules:

- `PyStr` (`py_str.dfy`): the Python `str` operations the code relies on. These are
  `isspace`, `strip()`, `rstrip(c)` and `split(sep)`, with CPython's exact set of
  whitespace characters. `count(c)` and `sep.join` are not called by the service;
  they are modelled to state properties of `split`.
- `PosixPath` (`posixpath.dfy`): `posixpath.dirname` and two-argument `posixpath.join`.
- `AppMain` (`main.dfy`): the settings record and its defaults, and loading it from
  the environment. It also holds the origin list, the results directory, the probe
  file and the `/config` object.

The origin list is `["*"]` when `ALLOWED_ORIGINS` is unset, empty or exactly `*`. The
comparison is made on the raw value, without stripping. Any other value is split at
every comma. Each piece is stripped of surrounding whitespace, and pieces that strip to
nothing are dropped. Order is kept. The code does not remove duplicates
(`AppMain.DuplicatesKept`).

The results directory is `os.path.dirname(RESULTS_CSV)`, or `/app/results` when that is
empty. `dirname` keeps everything up to and including the last `/`. It then drops the
trailing run of `/`, unless that part is all `/`.

## Model

| member | source | states |
|---|---|---|
| PyStr.LStrip | app/main.py:32 | left half of `o.strip()`: the result is a suffix of its argument and does not start with whitespace |
| PyStr.LStripDropsSpace | app/main.py:32 | the part `lstrip` removes is all whitespace |
| PyStr.RStrip | app/main.py:32 | right half of `o.strip()`: the result is a prefix of its argument and does not end with whitespace |
| PyStr.RStripDropsSpace | app/main.py:32 | the part `rstrip` removes is all whitespace |
| PyStr.Strip | app/main.py:32 | `o.strip()` is no longer than its argument, and neither of its ends is whitespace |
| PyStr.StripEmptyIff | app/main.py:32 | `o.strip()` is empty if and only if `o` is all whitespace, which is the comprehension's `if o.strip()` filter |
| PyStr.StripIsInfix | app/main.py:32 | `o.strip()` is a contiguous part of `o` with only whitespace before and after it |
| PyStr.StripAvoids | app/main.py:32 | stripping introduces no character, so a stripped piece still has no comma |
| PyStr.StripTrimmed | app/main.py:32 | a text whose ends are not whitespace strips to itself |
| PyStr.StripPadded | app/main.py:32 | whitespace padding around such a text is exactly what `strip()` removes |
| PyStr.LStripPadded | app/main.py:32 | `lstrip` removes exactly the whitespace in front of a text that starts with non-whitespace |
| PyStr.RStripPadded | app/main.py:32 | `rstrip` removes exactly the whitespace after a text that ends with non-whitespace |
| PyStr.Count | app/main.py:32 | the number of commas is at most the length of the text |
| PyStr.CountZero | app/main.py:32 | the count is zero if and only if the character does not occur |
| PyStr.Split | app/main.py:32 | `ALLOWED_ORIGINS.split(",")` yields at least one piece, and no piece contains the separator |
| PyStr.JoinSplit | app/main.py:32 | joining the pieces with the separator gives back the text |
| PyStr.SplitJoin | app/main.py:32 | splitting the join of separator-free pieces gives back the pieces |
| PyStr.SplitCount | app/main.py:32 | there is one more piece than there are separators |
| PyStr.SplitNoSep | app/main.py:32 | a text without the separator is one piece |
| PyStr.SplitCons | app/main.py:32 | one step of splitting: a leading separator closes an empty piece, another character joins the first piece |
| PyStr.SplitAppend | app/main.py:32 | splitting `a + sep + b` gives the pieces of `a` followed by the pieces of `b` |
| PyStr.RStripChar | app/main.py:46 | `head.rstrip('/')` inside `dirname`: a prefix, what it removes is all `/`, and it does not end with `/` |
| PosixPath.AfterLastSlash | app/main.py:46 | `p.rfind('/') + 1` inside `dirname`: a `/` stands just before it and none after it |
| PosixPath.AfterLastSlashUnique | app/main.py:46 | those two facts determine the position |
| PosixPath.Dirname | app/main.py:46 | `os.path.dirname`: a prefix of the path followed only by `/` up to the last `/`; a head up to the last `/` that is all `/` is returned whole; empty if and only if the path has no `/`; ends with `/` only when it is all `/` |
| PosixPath.Join | app/main.py:49 | `os.path.join(results_dir, name)`: an absolute name replaces the directory; otherwise the name follows the directory, with one `/` inserted only when the directory is non-empty and does not already end with `/`; so it adds at most one character |
| PosixPath.DirnameJoin | app/main.py:46-49 | a file name without `/` joined onto a directory as `dirname` returns it has that directory as its `dirname` |
| AppMain.KeyInjective | app/main.py:11-19 | no two settings share an environment variable name |
| AppMain.Load | app/main.py:11-22 | loading succeeds if and only if every variable that is set has its setting's type; each setting then takes the environment's value if set and its declared default otherwise |
| AppMain.LoadEmptyEnvironment | app/main.py:11-22 | with nothing set, the settings are the declared defaults |
| AppMain.KeepStripped | app/main.py:32 | the comprehension keeps at most as many entries as there are pieces, each non-empty with no whitespace at either end |
| AppMain.KeepStrippedAppend | app/main.py:32 | the comprehension over two lists of pieces is the concatenation of the two results, so order is kept |
| AppMain.KeepStrippedAvoids | app/main.py:32 | a character in no piece is in no entry |
| AppMain.ParseOriginsClean | app/main.py:32 | every entry is non-empty, has no whitespace at either end and no comma; there are at most commas + 1 entries |
| AppMain.ParseOriginsAppend | app/main.py:32 | the entries before a comma come first and those after it follow, so order and duplicates are kept |
| AppMain.ParseOriginsSingle | app/main.py:32 | comma-free text gives its stripped self, or nothing when it is blank |
| AppMain.ParseOriginsEntry | app/main.py:32 | a clean entry parses to exactly itself |
| AppMain.LeadingEntry | app/main.py:32 | a clean entry before a comma comes first, followed by the entries of the rest |
| AppMain.ParseOriginsBlank | app/main.py:32 | blank text yields no entry |
| AppMain.OnlyCommasAndSpaceAppend | app/main.py:29-32 | a text with a comma is made of commas and whitespace only if and only if both sides of that comma are |
| AppMain.ParseOriginsEmptyIff | app/main.py:32 | the comprehension yields no entry if and only if the text is made of commas and whitespace only |
| AppMain.ParseOriginsEmptyIffSingle | app/main.py:32 | the same for text without a comma |
| AppMain.IsWildcard | app/main.py:29 | the wildcard test is an exact match: no value longer than one character passes it, and of the one-character values only `*` does |
| AppMain.ParseOrigins | app/main.py:32 | the comprehension's entries are all non-empty, with no whitespace at either end and no comma |
| AppMain.DeriveAllowOrigins | app/main.py:29-32 | `["*"]` exactly for `None`, `""` and `"*"`; the parsed list for every other value, with at most commas + 1 entries; every entry is clean |
| AppMain.AllowOrigins | app/main.py:29-32 | the list installed for the loaded settings: every entry, `*` included, is non-empty, trimmed and comma-free, and there are at most commas + 1 entries |
| AppMain.DefaultAllowsAll | app/main.py:19-30 | the default `ALLOWED_ORIGINS` allows every origin |
| AppMain.PaddedEntry | app/main.py:32 | whitespace around a single entry is dropped |
| AppMain.PaddedWildcard | app/main.py:29-32 | a `*` with whitespace around it is not the wildcard value, but its list is still `["*"]` |
| AppMain.WildcardInsideList | app/main.py:29-32 | `*` at the head of a longer list is an ordinary entry followed by the entries of the rest |
| AppMain.TrailingCommaIgnored | app/main.py:32 | a trailing comma, with or without whitespace after it, adds no entry |
| AppMain.DuplicatesKept | app/main.py:32 | an entry given twice appears twice |
| AppMain.SeparatorsOnlyAllowNothing | app/main.py:29-32 | a non-empty value made of commas and whitespace only allows no origin |
| AppMain.ResultsDir | app/main.py:46 | never empty; `/app/results` when `RESULTS_CSV` has no `/`; otherwise `dirname(RESULTS_CSV)`, a prefix of it; ends with `/` only when it is all `/` |
| AppMain.DefaultCsvIsJoin | app/main.py:13 | the default `RESULTS_CSV` is `benchmark.csv` joined onto `/app/results` |
| AppMain.FileInFallback | app/main.py:13-46 | any file directly under `/app/results`, the default `RESULTS_CSV` among them, gives `/app/results` as results directory |
| AppMain.ProbeFile | app/main.py:49 | the probe file lies in the results directory: its `dirname` is that directory |
| AppMain.Config | app/main.py:77-88 | `/config` has eight pairs, in declaration order, each the variable name with that setting's value |
| AppMain.Index | app/main.py:11-19 | every setting has its place in the declaration order |
| AppMain.LookupAt | app/main.py:77-88 | a key found first at position `i` of the object yields the value there (reading the first pair with a key is a choice of the model; `/config` repeats no key) |
| AppMain.ConfigByKey | app/main.py:77-88 | every setting's name is a key of `/config` with that setting's value, and no key appears twice |
| AppMain.ConfigInjective | app/main.py:77-88 | `/config` loses nothing: equal objects come from equal settings |
| AppMain.DefaultConfig | app/main.py:11-19 | with nothing set, `/config` shows exactly the declared defaults |

## Left out

- FastAPI routing, the `/` and `/health` responses, and what the CORS middleware does
  with the list (app/main.py:25, 34-40, 57-74). These are framework calls. The two
  bodies are constant strings.
- The startup probe's file system work: `makedirs`, writing and removing the probe file,
  and logging a failure (app/main.py:47-54). Only the paths are modelled.
- AppMain.Load: does not model pydantic's conversion of environment text into values. It
  also leaves out case-insensitive variable names and `.env` files. Its argument holds
  each set variable already converted to a string, integer or float. A value of the
  wrong type makes loading fail, without pydantic's error report.
- The two float settings are carried as exact `real` values. No arithmetic is done on
  them, so IEEE rounding plays no part.
- `None` cannot reach the origin test from a `str` setting. `AppMain.DeriveAllowOrigins`
  takes an optional value so that the `None` case of the test is modelled as written.
- The default results directory is stated in two steps, `AppMain.DefaultCsvIsJoin` and
  `AppMain.FileInFallback`. The solver cannot unfold `dirname` cheaply over the
  26-character literal, so they are not combined into one lemma.
- The JSON encoding of `/config` is not modelled. The object is modelled as its ordered
  key/value pairs.
