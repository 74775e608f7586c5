# Contest simulator: a Dafny model

This project models the logic of a timed contest simulator for an online judge.
A small Python backend reads the problem set and the user's recent accepted
submissions and draws a contest of up to four problems. A React page runs a
90-minute session over that contest: it polls the backend every 15 seconds,
merges the solves into a progress map, keeps a countdown, shows a score, and
saves the session in browser storage so that a reload resumes it.

Modules:

- `Problems` (Problems.dfy): the question record (title, slug, difficulty, paid-only flag, topic tags, solve status).
- `LeetcodeApi` (LeetcodeApi.dfy): `backend/leetcode_api.py`. The solve-map loop of `check_recent_submissions`, the paid-only filter of `get_problems_with_status`, and `generate_contest`. The GraphQL responses are inputs. `random.choice` and `random.sample` are nondeterministic choices of positions (`:|`).
- `Scoreboard` (Scoreboard.dfy): the pure parts of `frontend/src/App.jsx`: `POINTS`, `calculateTotalScore`, the results screen's full-marks total, the merge inside `checkSubmissions`, `toggleTag`'s updater, `formatTime`, and the countdown arithmetic.
- `ContestApp` (ContestApp.dfy): the component's state as class `App`, whose fields are the React state variables plus `saved`, the stored `CONTEST_STATE` item. The effects and handlers are methods. The clock and the network responses are parameters.
- `Sequences` (Sequences.dfy), `Decimal` (Decimal.dfy), `Wrappers` (Wrappers.dfy): helpers. They cover order-preserving filtering (the list comprehensions and `Array.filter`), JavaScript's rendering of an integer in a template string, and `Option`.

Behaviour of the page worth knowing before reading the contracts:

- The score is the sum of the points of the solved problems. There is no failure-count penalty, effective time or verdict tier.
- Remaining time is whole seconds, `max(0, floor((end - now) / 1000))`.
- A finished record is resumed without its start and end times.
- `resetTool` does not clear the progress map. The next start empties it.

## Model

| member | source | states |
|---|---|---|
| `LeetcodeApi.CheckRecentSubmissions` | backend/leetcode_api.py:14-45 | An empty username or a failed request yields the empty map. Otherwise the result is the map the filtering loop builds over the submission list, in list order (`Updates`). |
| `LeetcodeApi.Updates` | backend/leetcode_api.py:32-38 | Every key of the solve map the loop builds is one of the contest's slugs. Its value is a timestamp strictly after the contest start. |
| `LeetcodeApi.UpdatesLastWins` | backend/leetcode_api.py:33-38 | A slug is a key exactly when some submission for it qualifies. Its value is the timestamp of the last qualifying submission in list order, because later entries overwrite earlier ones. |
| `LeetcodeApi.GetProblemsWithStatus` | backend/leetcode_api.py:79-87 | A failed request yields `[]`. Otherwise a question is in the result exactly when it is in the response and is not paid-only. |
| `LeetcodeApi.GetProblemsKeepsOrder` | backend/leetcode_api.py:84 | The paid-only filter keeps order: filtering a concatenation concatenates the filtered parts. A response with no paid question comes back unchanged. |
| `LeetcodeApi.TagFilter` | backend/leetcode_api.py:91-96 | An empty tag list filters nothing. Otherwise a problem is kept exactly when one of its topic tags has a selected slug. |
| `LeetcodeApi.StatusFilter` | backend/leetcode_api.py:99-104 | Mode "solved" keeps exactly the problems with status "ac". Mode "unsolved" keeps exactly the others. Any other mode keeps the list as it is. |
| `LeetcodeApi.OfDifficulty` | backend/leetcode_api.py:107-109 | A problem is in a difficulty's pool exactly when it is in the filtered list and has that difficulty. |
| `LeetcodeApi.GenerateContest` | backend/leetcode_api.py:89-119 | The result has the contest shape over the three difficulty pools of the tag- and status-filtered list. |
| `LeetcodeApi.PickContest` | backend/leetcode_api.py:111-117 | The successive appends give: one Easy problem from its pool if the pool is non-empty, then two Medium problems at distinct pool positions if at least two exist (or else all of them), then one Hard problem from its pool if the pool is non-empty. |
| `LeetcodeApi.ContestDifficulties` | backend/leetcode_api.py:111-119 | In a contest of that shape, the first min(1, |Easy pool|) problems are Easy, the next min(2, |Medium pool|) are Medium, and the rest are Hard. All of them are from the pool. |
| `LeetcodeApi.ContestOrder` | backend/leetcode_api.py:111-119 | A contest of that shape has at most 4 problems. All of them are from the pool, with Easy before Medium before Hard. |
| `LeetcodeApi.ContestCounts` | backend/leetcode_api.py:113-117 | For each difficulty, the contest holds min(pool size, quota) problems of it, with quotas 1/2/1. So a difficulty appears iff its pool is non-empty, and exactly two Medium problems appear iff at least two exist. |
| `LeetcodeApi.ContestRespectsFilters` | backend/leetcode_api.py:89-104 | Every contest problem is from the input list. It has a selected tag when tags were given. It is accepted in mode "solved" and not accepted in mode "unsolved". |
| `Sequences.Filter` | backend/leetcode_api.py:107-109 | A list comprehension's result is no longer than its input. An element is in it exactly when it is in the input and passes the test. |
| `Sequences.FilterDistributes` | backend/leetcode_api.py:84 | Filtering keeps order: the filter of `a + b` is the filter of `a` followed by the filter of `b`. |
| `Sequences.FilterNoDuplicates` | frontend/src/App.jsx:176 | Filtering a duplicate-free list gives a duplicate-free list. |
| `Decimal.NatToString` | frontend/src/App.jsx:183 | `${n}` for n ≥ 0 is a non-empty digit string with no leading zero. It is one character long exactly when n < 10. |
| `Decimal.NatToStringRoundTrip` | frontend/src/App.jsx:183 | Reading the rendered digits back gives the number. |
| `Decimal.LeadingZero` | frontend/src/App.jsx:183 | The '0' pad in front of a seconds value below 10 does not change the value it reads as. |
| `Scoreboard.Points` | frontend/src/App.jsx:18 | An Easy problem is worth 3 points, a Medium one 5 and a Hard one 7. |
| `Scoreboard.FullMarks` | frontend/src/App.jsx:348 | The full-marks total of a contest lies between 3 and 7 points per problem. |
| `Scoreboard.TotalScore` | frontend/src/App.jsx:168-172 | The score (a left fold adding `POINTS[difficulty]` for each solved problem) is a natural number. It never exceeds the full-marks total of line 348. |
| `Scoreboard.TotalScoreSumsSolved` | frontend/src/App.jsx:168-172 | The score equals the points summed over exactly those contest problems whose progress entry is solved. |
| `Scoreboard.FullMarksAppend` | frontend/src/App.jsx:348 | The full-marks total of a concatenation is the sum of the parts' totals. |
| `Scoreboard.AllOrNothing` | frontend/src/App.jsx:168-172 | Solving every contest problem scores full marks. Solving none scores 0. |
| `Scoreboard.ScoreMonotone` | frontend/src/App.jsx:168-172 | A progress map that marks at least the same slugs solved scores at least as much. |
| `Scoreboard.ScoreExample` | frontend/src/App.jsx:18 | Easy, Medium and Hard problems (3/5/7 points) with only the Medium one solved score 5 out of 15. |
| `Scoreboard.ElapsedMinutes` | frontend/src/App.jsx:140-143 | The time taken is the whole minutes from the start to the solve, and 0 when less than a minute has passed or the solve is stamped before the start. |
| `Scoreboard.MergeStatus` | frontend/src/App.jsx:136-148 | The updater's copy-and-forEach loop yields exactly `Merged(prev, solvedMap, startTime)`. |
| `Scoreboard.Merged` | frontend/src/App.jsx:136-147 | After the merge the key set is prev's keys ∪ the response's keys. Every slug of prev keeps exactly its entry. Each new entry is solved, with `timeTaken = max(0, floor((ts - start) / 60)) ≥ 0`. |
| `Scoreboard.MergeIdempotent` | frontend/src/App.jsx:136-147 | Applying the same response twice gives the same map as applying it once. |
| `Scoreboard.MergeNeverLowersScore` | frontend/src/App.jsx:136-147 | A merge never lowers the score. |
| `Scoreboard.ToggledTags` | frontend/src/App.jsx:174-178 | The toggled slug is in the result exactly when it was not in the list. Every other tag's membership is unchanged. A duplicate-free list stays duplicate-free. |
| `Scoreboard.ToggleTwice` | frontend/src/App.jsx:174-178 | Toggling a slug twice gives the same set of tags. If the slug was not selected, it gives exactly the original list. |
| `Scoreboard.JsRem` | frontend/src/App.jsx:182 | JavaScript's `%` by a positive divisor: the remainder is smaller in size than the divisor, has the sign of the dividend, and differs from the dividend by a multiple of the divisor. Together these fix the truncated remainder. For a non-negative dividend it is the mathematical remainder. |
| `Scoreboard.FormatTime` | frontend/src/App.jsx:180-184 | For seconds ≥ 0 the clock is the minutes (seconds div 60), a colon, and the padded seconds field of seconds mod 60. |
| `Scoreboard.SecondsFieldDigits` | frontend/src/App.jsx:182-183 | For 0 ≤ s < 60, the padded seconds field is exactly two digits that read as s. |
| `Scoreboard.FormatTimeShape` | frontend/src/App.jsx:180-184 | For seconds ≥ 0 the clock reads digits, ':' and exactly two digits. The minutes have no leading zero and equal seconds div 60. The two digits read as seconds mod 60. m·60 + s gives back the seconds. |
| `Scoreboard.RemainingSeconds` | frontend/src/App.jsx:80 | The seconds left are never negative. They are 0 when less than one second remains. Otherwise they are the whole seconds in `endTime - now`. |
| `Scoreboard.PollDue` | frontend/src/App.jsx:82 | A status check is due only with at least 15 seconds left. |
| `Scoreboard.PollCadence` | frontend/src/App.jsx:82 | Two due values of the countdown are at least 15 seconds apart: none of the 14 values on either side of a due one is due. Any 15 consecutive positive seconds contain a due one. |
| `ContestApp.ResumedPhase` | frontend/src/App.jsx:41-63 | A reload is active exactly when the saved record is active and its end is in the future. It shows results exactly when the record is finished and not resumed as active. With no saved record it is in configuration. |
| `ContestApp.ModeOrAll` | frontend/src/App.jsx:54 | A saved mode that is missing or empty reads as "all". A non-empty one is kept. |
| `ContestApp.ContestSlugs` | frontend/src/App.jsx:127 | The request's slug list has one slug per contest problem, in contest order. |
| `ContestApp.PollAddsOnlyContestProblems` | frontend/src/App.jsx:127-145 | When the merged response is the backend's solve map for the contest's slugs, every new progress entry is a contest problem, is solved, and has `timeTaken·60` no greater than the seconds since the start. |
| `ContestApp.App.constructor` | frontend/src/App.jsx:22-35 | The initial state is the configuration view: no contest, empty progress, a 5400-second clock, mode "all", no tags, and the stored username. |
| `ContestApp.App.Resume` | frontend/src/App.jsx:41-63 | An active saved record whose end is in the future resumes active, with its contest, times, progress and mode, and `timeLeft = floor((end - now) / 1000)`. Otherwise a finished record resumes finished, with its contest and progress. Otherwise, including an expired active record, the page stays in configuration and nothing changes. |
| `ContestApp.App.Persist` | frontend/src/App.jsx:65-72 | While active or finished, the saved record mirrors the state. Otherwise the saved record is left alone. |
| `ContestApp.App.StartContest` | frontend/src/App.jsx:90-123 | With an empty username, or when the request fails, nothing changes. Otherwise the page becomes active and not finished, with the response's contest and server start time, empty progress, `timeLeft = 5400` and `endTime = now + 5400000`. |
| `ContestApp.App.CheckSubmissions` | frontend/src/App.jsx:125-134 | An inactive page sends nothing. An active one asks about the contest's slugs since its start time. |
| `ContestApp.App.ApplyStatusResponse` | frontend/src/App.jsx:135-151 | A failed request leaves the progress alone. A response is merged first-solve-wins into the current progress. |
| `ContestApp.App.IntervalTick` | frontend/src/App.jsx:77-83 | `timeLeft` becomes `max(0, floor((endTime - now) / 1000))`. A status check is due iff it is positive and a multiple of 15. |
| `ContestApp.App.RunTimerEffect` | frontend/src/App.jsx:84-86 | An active page with `timeLeft ≤ 0` moves to finished. Otherwise nothing changes. |
| `ContestApp.App.FinishContest` | frontend/src/App.jsx:154-157 | The page becomes not active and finished. |
| `ContestApp.App.ResetTool` | frontend/src/App.jsx:159-166 | The saved record is cleared. The page returns to configuration with no contest and a 5400-second clock. Progress, start time and end time are untouched. |
| `ContestApp.App.ToggleTag` | frontend/src/App.jsx:174-178 | The selected tags become the toggled list. |
| `ContestApp.PlaySession` | frontend/src/App.jsx:65-157 | A contest over an Easy, a Medium and a Hard problem, with the Medium one reported solved at 10 and then at 20 minutes, runs to the end of the clock. The stored record is finished, holds the three problems, and keeps the first solve: Medium solved in 10 minutes. |
| `ContestApp.Session` | frontend/src/App.jsx:41-166 | A session over an Easy, a Medium and a Hard problem, with the Medium one solved twice, runs to the end of the clock, finishes, is saved and reloaded. The results screen shows 5 of 15 points. After a reset a reload is in configuration. |

## Left out

- Network I/O is not modelled: `axios.post`, `requests.post`, GraphQL query texts, timeouts, status codes and JSON decoding. Each response is an `Option` input, with `None` for every path that ends in an alert, a log line or an `except` clause.
- `int(sub['timestamp'])` is not modelled: timestamps arrive as integers, so a timestamp that does not parse (which the source turns into `{}`) cannot occur.
- Difficulty is a three-valued datatype, so a question with any other difficulty string (which the source would drop from all three pools, and which `POINTS` would score as NaN) cannot be expressed.
- `backend/main.py` is not part of this model: routing, request models, CORS, the 500 error on an empty problem list, and `time.time()`. The server start time is a field of the create-contest response.
- The `random` module is not modelled: its picks are nondeterministic positions, and their distribution is not modelled.
- The credential cookie is not modelled: its use as a request header (it only affects the `status` field of the input) and its storage.
- `localStorage` is not modelled except for the `CONTEST_STATE` record, which is the `saved` field. The username and cookie keys, `JSON.parse`/`JSON.stringify`, and a record that does not parse are not modelled; the source has no `try` around `JSON.parse`.
- Rendering is not modelled: JSX, `alert`, `console.error`, the `loading` flag, and the input handlers `setUsername`, `setCookie` and `setMode`.
- JavaScript objects used as maps (the progress map and the response's solve map) are modelled as Dafny maps without inherited keys. A slug naming an `Object.prototype` member, such as "constructor", would make `!newProgress[slug]` false in the page, so no entry would be added. Online-judge slugs never take these names.
- Scheduling is not modelled: `setInterval`, effect re-runs and the async ordering of overlapping requests. One interval callback is `IntervalTick(now)`, and the other effect branch is `RunTimerEffect`. A request and its response are two separate calls, so a response may be applied in any later state.
- ContestApp.App.FinishContest: requires an active page, because its only triggers (the Submit button and the timer effect) exist only while active.
- ContestApp.App.Resume: requires the mount-time state (neither active nor finished), because the effect runs once on mount.
- ContestApp.App.IntervalTick: requires an active page with time left, because the interval is only installed then.
- Scoreboard.FormatTimeShape: stated for seconds ≥ 0 only, because every clock value the page formats is non-negative. `FormatTime` itself is defined for negative input with JavaScript's truncating `%`.
