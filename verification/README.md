# grizzly runner and adapter registry, in Dafny

This project models two pieces of the grizzly browser-fuzzing harness:

- the single-trial `Runner` of `grizzly/common/runner.py`, together with its `_IdleChecker`. This covers the delivery location handed to the target (`location`), the classification of a trial and its side effects (`run`), the mapping of served include files back to test-case names, the launch retry loop (`launch`) and the wait predicate given to the content server (`_keep_waiting`);
- the adapter registry of `grizzly/corpman/adapters` (`load`, `names`, `get`). It loads once, validates each adapter's `NAME`, detects name collisions, and either skips broken packages or fails on them, depending on `skip_failures`.

The model follows the behaviour pinned by `grizzly/common/test_runner.py` and `grizzly/corpman/adapters/test_loader.py`. Each member below cites the test lines it encodes.

The collaborators become values:

- the content server's report is a delivery status and a list of served files;
- the target's report is a failure signal, a health flag, and what each launch attempt does;
- the idle probe's answer is a boolean `verdict`;
- the clock is a natural-number `now`, or the two readings around delivery;
- a directory of adapter packages is a sequence of entries, each saying what importing it produced.

Files:

| file | module | contents |
|---|---|---|
| wrappers.dfy | Wrappers | `Option`, `Result` |
| decimal.dfy | Decimal | rendering a natural number in decimal, and reading it back |
| url.dfy | Url | `location`, a parser for locations, and the round trip |
| idle.dfy | Idle | `_IdleChecker`: schedule, rate-limited probe |
| includes.dfy | Includes | served include files mapped to test-case names |
| runner.dfy | Runner | classification, side effects, `launch`, `_keep_waiting` |
| adapters.dfy | Adapters | the adapter registry |

## Model

| member | source | states |
|---|---|---|
| Url.StripSlashes | grizzly/common/test_runner.py:162-165 | The result is a suffix of the path, everything removed is `/`, and the result does not start with `/`. |
| Url.LocationShape | grizzly/common/test_runner.py:162-173 | A location starts with the bare location `http://127.0.0.1:<port>/<path>`. For a path without `?`, the location contains a `?` exactly when some option is given. |
| Url.Location | grizzly/common/test_runner.py:162-173 | For a path without `?`, parsing the location gives back the port, the path stripped of leading slashes, and exactly the options given. The parser accepts only numerals as `"%d"` writes them (no leading zeros), so the port is written digit for digit as `"%d"` writes it, and the query string holds `close_after`, `forced_close` as `0`/`1`, and `timeout` in milliseconds, each once, in that fixed order. |
| Url.ParseQueryFields | grizzly/common/test_runner.py:166-173 | The query parameters built from any set of options parse back to those options, the seconds-to-milliseconds conversion included. No options give no parameters. |
| Decimal.ReadShow | grizzly/common/test_runner.py:162-173 | Reading the decimal rendering of a port or parameter value gives the number back. |
| Decimal.ShowRead | grizzly/common/test_runner.py:162-173 | A numeral of digits with no leading zero (other than `0` itself) is the decimal rendering of the number it reads as. So the numerals the location parser accepts are exactly the ones `"%d"` writes, and a number has only one of them. |
| Url.LocationWithoutOptions | grizzly/common/test_runner.py:162-165 | `a.html` and `/a.html` on port 34567 both give `http://127.0.0.1:34567/a.html`. |
| Url.LocationWithOptions | grizzly/common/test_runner.py:166-171 | `close_after=10`, `forced_close=False` and both give `?close_after=10`, `?forced_close=0` and `?close_after=10&forced_close=0`. |
| Url.LocationWithAllOptions | grizzly/common/test_runner.py:172-173 | All three options on port 9999 give `http://127.0.0.1:9999/a.html?close_after=10&forced_close=0&timeout=60000`. |
| Runner.Classify | grizzly/common/test_runner.py:59-120 | Four if-and-only-ifs. `Failed` exactly on a failure signal, whether or not the landing page was served. `Error` exactly when there is no failure signal and the landing page is missing. `Ignored` exactly on an ignored signal with the landing page served. `Complete` exactly when there is no signal and the landing page was served. |
| Runner.Run | grizzly/common/test_runner.py:17-120 | The status is the classification. The served list is the server's, unchanged. `timeout` holds iff delivery timed out. The duration is the second clock reading minus the first. The target is closed 0 times on `Complete`, once on `Error`, and never more than once. The test case is dumped once iff no test path is given. Coverage is dumped once iff requested. The recorded include names are exactly those of served files under an include. |
| Runner.CompleteOnlyWhenDelivered | grizzly/common/test_runner.py:17-79 | A trial is `Complete` iff the landing page was served and the target reported nothing. |
| Runner.DurationNonNegative | grizzly/common/test_runner.py:28-31 | With ordered clock readings the duration is not negative. |
| Runner.ServedAllExample | grizzly/common/test_runner.py:25-37 | All files served, clock readings 1 and 2: `Complete`, duration 1, the served list unchanged, no timeout, no close, one dump, no coverage dump. |
| Runner.ServedRequestExample | grizzly/common/test_runner.py:38-46 | Some files served, with coverage: `Complete`, no close, one coverage dump. |
| Runner.TestPathExample | grizzly/common/test_runner.py:47-56 | With a test path: `Complete`, no close, no dump. |
| Runner.ErrorExamples | grizzly/common/test_runner.py:59-79 | Nothing served, or only `harness` served: `Error`, one close, and the served list empty or not empty respectively. |
| Runner.TimeoutExample | grizzly/common/test_runner.py:81-92 | Delivery timed out and the target failed: `Failed`, the served list unchanged, `timeout` set. |
| Runner.FailureExamples | grizzly/common/test_runner.py:94-120 | A failure or an ignored result with the landing page served, and a failure without it, give `Failed`, `Ignored` and `Failed`, with no timeout. |
| Runner.Launch | grizzly/common/test_runner.py:175-194 | After `calls` attempts, every attempt but the last timed out. A successful last attempt raises nothing. A launch error raises the fatal failure. A timeout is raised only on attempt number `maxRetries`. |
| Runner.LaunchExamples | grizzly/common/test_runner.py:180-194 | For any number of retries allowed, a target that starts on the first attempt is launched once, and a launch error on the first attempt is raised after one attempt. A persistent timeout with three retries is raised after three. |
| Runner.KeepWaiting | grizzly/common/test_runner.py:135-158 | An unhealthy target stops the wait. A healthy one keeps it going unless a configured idle checker reports idle. Without a checker the answer is the health flag. |
| Runner.HealthDecidesBeforePoll | grizzly/common/test_runner.py:147-158 | Before the checker's poll is due, the wait predicate answers exactly the health flag and leaves the checker unchanged. |
| Runner.KeepWaitingExamples | grizzly/common/test_runner.py:140-158 | The five tested combinations of health and idle verdict. |
| Idle.Create | grizzly/common/test_runner.py:230-234 | A new checker keeps the threshold, initial delay and poll delay it was given, and has nothing scheduled. |
| Idle.FreshCheckerWaits | grizzly/common/test_runner.py:230-234 | Until a poll is scheduled, a new checker never calls the probe and never reports idle, at any sequence of times. |
| Idle.SchedulePoll | grizzly/common/test_runner.py:235-239 | Scheduling keeps the configuration and sets the next poll to `now` plus the initial delay or the poll delay. |
| Idle.IsIdle | grizzly/common/test_runner.py:241-261 | The probe is called exactly when the scheduled time has been reached, the time itself included. Otherwise the answer is "not idle" and nothing changes. When called, the probe's verdict is returned unchanged and the next poll is `now` plus the poll delay. |
| Idle.RateLimited | grizzly/common/test_runner.py:241-261 | Asked at ascending times, the checker probes only at asked times, never before the schedule, and never twice within the poll delay. With nothing scheduled it never probes. |
| Idle.GracePeriod | grizzly/common/test_runner.py:246-256 | After scheduling at `t0`, a check before `t0` plus the delay neither probes nor reports idle. A check from then on probes, relays the verdict and reschedules. |
| Idle.CheckerExamples | grizzly/common/test_runner.py:227-261 | Nothing is scheduled at creation. Scheduling at time 0 gives 10 (initial) and 1. Then comes an early check without a probe, a check at 10 that reschedules to 11, and an idle verdict exactly at 11. |
| Includes.JoinPath | grizzly/common/test_runner.py:223-225 | Joining onto an empty prefix gives the relative name. Joining onto a prefix not ending in `/` puts one `/` between them. |
| Includes.NamesOf | grizzly/common/test_runner.py:214-225 | The names one served file maps to are exactly its names through the includes it lies under. |
| Includes.Consumed | grizzly/common/test_runner.py:214-225 | The recorded names are exactly those some served file maps to through some include. |
| Includes.NameBelow | grizzly/common/test_runner.py:216-225 | A file `rel` below an include's directory is named `rel` joined onto the include's URL prefix, leading slashes removed. |
| Includes.ConsumedRootExample | grizzly/common/test_runner.py:216-224 | Files served from the include at `/` are recorded as `inc_file.bin` and `nested/nested_inc.bin`. |
| Includes.ConsumedPrefixExample | grizzly/common/test_runner.py:217-225 | A file served from the include at `/test` is recorded as `test/inc_file3.txt`. |
| Adapters.Names | grizzly/corpman/adapters/test_loader.py:53-55 | A name is listed exactly when `get` finds an adapter under it. |
| Adapters.Step | grizzly/corpman/adapters/test_loader.py:60-124 | One entry is accepted iff it is admissible and its name is new. An admissible entry is a failed import only when skipping failures, and a class with a lower-case `NAME`. A non-adapter entry changes nothing. An adapter is added under its `NAME`. |
| Adapters.Scan | grizzly/corpman/adapters/test_loader.py:60-124 | A scan never reports "already loaded", and a successful scan keeps every adapter registered before it under the same name. |
| Adapters.Load | grizzly/corpman/adapters/test_loader.py:56-58 | With adapters already registered, `load` refuses as already loaded. Any refusal leaves the registry as it was. Only an empty registry can be loaded. |
| Adapters.ScanSucceeds | grizzly/corpman/adapters/test_loader.py:60-124 | A directory is accepted iff every entry is admissible, no two classes share a `NAME`, and none reuses a registered name. |
| Adapters.ScanRegisters | grizzly/corpman/adapters/test_loader.py:43-55 | A successful scan adds exactly the declared classes, each under its own `NAME`, and keeps the earlier entries. |
| Adapters.LoadSucceeds | grizzly/corpman/adapters/test_loader.py:43-55 | `load` succeeds iff the registry is empty and the directory acceptable. Then `names` lists exactly the declared names, and `get` returns each declared class. |
| Adapters.LoadKeepsRegistryValid | grizzly/corpman/adapters/test_loader.py:60-81 | After any `load` on a valid registry, every class sits under its own lower-case `NAME`. |
| Adapters.LoadOnce | grizzly/corpman/adapters/test_loader.py:56-58 | After a load that registered an adapter, every further `load` refuses as already loaded and changes nothing. |
| Adapters.BadNameRefused | grizzly/corpman/adapters/test_loader.py:60-81 | A class with no `NAME`, or one with an upper-case letter, makes `load` refuse in either mode, leaving the registry empty. |
| Adapters.CollisionRefused | grizzly/corpman/adapters/test_loader.py:83-96 | Two classes with one `NAME` make `load` refuse in either mode, leaving the registry empty. |
| Adapters.StrictImportRefused | grizzly/corpman/adapters/test_loader.py:118-124 | A package that fails to import makes a strict `load` refuse. |
| Adapters.SkipIgnoresBroken | grizzly/corpman/adapters/test_loader.py:98-116 | Skipping failures, loading a directory is the same as loading only its adapter packages. |
| Adapters.StrictAgreesWithSkip | grizzly/corpman/adapters/test_loader.py:98-124 | Where a strict load succeeds, a skipping load gives the same registry. |
| Adapters.EmptyBeforeLoad | grizzly/corpman/adapters/test_loader.py:126-130 | Before loading, `get` finds nothing and `names` is empty. |
| Adapters.NoPackagesExample | grizzly/corpman/adapters/test_loader.py:33-41 | An empty directory, an empty file and a bare `fake.py` register nothing. |
| Adapters.SimpleAdapterExample | grizzly/corpman/adapters/test_loader.py:43-58 | The adapter `simple` is registered and listed, and a second `load` refuses. |
| Adapters.InvalidNameExamples | grizzly/corpman/adapters/test_loader.py:60-81 | `UppER` and a missing `NAME` are refused in skip mode, and nothing is registered. |
| Adapters.CollisionExample | grizzly/corpman/adapters/test_loader.py:83-96 | Two adapters named `adpt` are refused as a collision. |
| Adapters.SkipFailuresExample | grizzly/corpman/adapters/test_loader.py:98-124 | In skip mode, `good` is registered next to a package without an adapter and one that fails to import. Strictly, the failed import is refused. |

## Left out

- The content server (Sapphire), the target process and its health monitor are inputs. Their reports arrive as values: delivery status, served list, failure signal, health flag, launch attempts and probe verdict.
- Runner.Run: a failure signal gives `Failed` even when the landing page was not served (test_runner.py:114-120). Any other trial without the landing page is `Error`.
- Runner.Classify: an ignored signal without the landing page is classified `Error`. No test pins this case; the model keeps the missing-landing-page rule wherever no test shows a failure signal overriding it.
- Runner.Run: closing the target on `Failed` and `Ignored` is left unconstrained, because no test pins it. The model closes at most once, on every status other than `Complete`.
- Runner.Run: idle scheduling during delivery is not modelled inside `run`. The wait predicate is modelled on its own (`KeepWaiting`), and the served list is an input. The `Runner` constructor's idle configuration (test_runner.py:122-133) is not modelled either.
- Runner.Run: the extra files served alongside the test case and the test case's optional files are not modelled. The test case is represented by its landing page.
- Runner.KeepWaiting: when the target is unhealthy, the contract says nothing about whether the idle checker was polled.
- Runner.Launch: requires at least one attempt, because a `max_retries` of zero is never exercised.
- Floats: idle thresholds and delays (test_runner.py:129) and timeouts are natural numbers. Wall-clock time is a `now` parameter.
- The idle `threshold` is stored and never compared (test_runner.py:230-231). It is handed to the probe's owner.
- Url.StripSlashes: strips every leading `/`. The tests pin only a single one.
- Includes: paths are already normalised strings with `/` as the separator. Filesystem access is not modelled.
- Adapters: the filesystem and Python's import machinery are not modelled. Each directory entry says what importing it produced. Logging setup (test_loader.py:14-20) is left out.
- Adapters.Load: the load-once guard is "the registry already holds adapters". That is the only state the tests reset between cases (test_loader.py:25-27). So a load that registered nothing can be repeated.
- Adapters.Step: a package defining no adapter class is skipped in strict mode too, because no test covers that case. Upper case means ASCII `A`-`Z` only.
- Adapters.Scan: a refused load registers nothing, as if `load` rolled back. This is a modelling choice that no test pins: test_loader.py:83-96 refuses a two-adapter directory without looking at the registry afterwards, and the module-level registry reset between tests (test_loader.py:25-27) suggests `load` may register in place. Adapters.BadNameRefused and Adapters.CollisionRefused state the empty registry that follows from this choice.
- grizzly/reduce/__main__.py is a command-line entry point with no logic of its own.
