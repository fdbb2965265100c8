# Spatial focus navigation of the TV remote-control server

This project models the core of the Raspberry Pi server of a TV remote
control (`pi-server/server.py`). The server drives a kiosk browser. A
directional request (up, down, left, right) moves the keyboard focus to the
"next" on-screen element in that direction. Text, URL, enter/back and close
requests are turned into shell commands or browser scripts.

The model covers:

- **Geometry** (`geometry.dfy`): an element is its bounding-box centre and
  tag. A direction has a 30-pixel dead zone on the movement axis. The sort
  keys are the distance and the cross-axis offset. Candidates are ranked by
  squared distance, and a lemma shows this gives the same order as ranking
  by the Euclidean distance the source computes.
- **Ranking** (`ranking.dfy`): the list of candidates that the loop of
  `navigate_direction` builds, in document order. The in-place
  `candidates.sort(...)` is a stable insertion sort on the key pair. `Target`
  is the index handed to `focus_element`. The lemmas prove three things about
  the winner. It qualifies (it is not the focused element and it lies beyond
  the dead zone). Its (distance, cross offset) pair is lexicographically
  minimal. Every earlier qualifying element has a strictly larger key, which
  is the stable tie-break. A fourth lemma shows that these three
  properties determine the winner uniquely. A reference definition,
  `FirstMin`, is proved equal to the head of the sorted list, so any stable
  sort would pick the same element.
- **Escaping** (`escaping.dfy`): the `text.replace('"', '\\"')` transform.
  Its inverse is `Unescape`, and there is a lemma on its length.
- **Server** (`server.dfy`): the process-wide `current_focus_index` and a log
  of issued external commands are fields of the class `ServerState`. Its
  methods are `focus_element`, `navigate_direction` (an imperative loop
  proved against the `NavigationStep` specification), and the `close`,
  `navigate`, `text` and `url` handlers. Each DOM query is an input sequence,
  and an empty sequence also stands for a failed query. `focus_element` calls
  `find_elements` again, with the same filter, but later: the DOM can change
  between the two queries, so it takes a second, independent sequence
  (`requeried`). Shell commands and browser scripts are `Command` values appended to
  `commands`. Whether `pgrep` finds the browser is a boolean input.

Three behaviours of the code worth noting:

- A failed navigation replies with status 200 and `success: false`, not
  with 400.
- When the stored focus index is past the end of the current query result,
  `elements[current_focus_index]` raises `IndexError`, and Flask answers
  with a 500 error. The model has an explicit `IndexError` outcome for this
  case. It is not excluded by a precondition.
- In the bootstrap case the index is set to 0 *before* `focus_element(0)`
  runs. So if the fresh query comes back empty, the step fails and the index
  is still 0.

## Model

| member | source | states |
|---|---|---|
| Geometry.SquaredDistanceOrder | pi-server/server.py:155 | for non-negative distances, `<` and `==` on the distances agree with `<` and `==` on their squares |
| Ranking.RankingBySquaredDistance | pi-server/server.py:155-167 | for candidates whose keys hold the squares of their true distances, the key order is the tuple order on (distance, cross offset) |
| Ranking.CandidatesUpTo | pi-server/server.py:148-164 | after the loop has seen n elements, every appended entry is the candidate of an element before position n, and entries appear in increasing document order |
| Ranking.CandidatesComplete | pi-server/server.py:150-164 | every qualifying element before position n is in the candidate list |
| Ranking.Insert | pi-server/server.py:167 | inserting adds exactly one entry (multiset) and puts it first exactly when its key is not greater than the old head's key |
| Ranking.SortByKey | pi-server/server.py:167 | sorting is a permutation of the candidates |
| Ranking.InsertSorted | pi-server/server.py:167 | inserting into a sorted list keeps it sorted |
| Ranking.SortByKeySorted | pi-server/server.py:167 | the sorted list is non-decreasing in (distance, cross offset) |
| Ranking.FirstMin | pi-server/server.py:166-168 | reference winner: its key is no larger than any entry's, and every earlier entry's key is strictly larger |
| Ranking.SortByKeyHead | pi-server/server.py:167-168 | the head of the stable sort is the first entry of minimal key |
| Ranking.QualifiesIff | pi-server/server.py:150-164 | an element is a candidate iff it is not the focused one and up: dy < -30, down: dy > 30, left: dx < -30, right: dx > 30 |
| Ranking.KeyAtIs | pi-server/server.py:153-164 | a candidate's key is (dx²+dy², abs(dx)) for up/down and (dx²+dy², abs(dy)) for left/right |
| Ranking.TargetQualifies | pi-server/server.py:150-168 | the selected element qualifies for the direction and differs from the focused index |
| Ranking.TargetMinimal | pi-server/server.py:157-168 | the selected element's (distance, cross offset) is lexicographically minimal among all qualifying elements |
| Ranking.TargetFirstOfEqual | pi-server/server.py:150-168 | every qualifying element earlier in document order has a strictly larger key (stable tie-break) |
| Ranking.TargetNoneIff | pi-server/server.py:166-170 | there is no selection exactly when no element qualifies |
| Ranking.UnknownDirectionNoTarget | pi-server/server.py:157-164 | a direction other than up/down/left/right never yields a candidate |
| Ranking.TargetUnique | pi-server/server.py:150-168 | any qualifying, key-minimal element that beats every earlier qualifying one is the selection |
| Ranking.DownScenario | pi-server/server.py:136-168 | from (100,100) down with (100,300) and (300,100) present, element 1 is selected |
| Escaping.UnescapeEscape | pi-server/server.py:218 | unescaping the escaped text gives back the input: each quote became a backslash and a quote, and every other character is kept in order |
| Escaping.EscapeLength | pi-server/server.py:218 | the escaped text is the input length plus the number of quotes |
| Escaping.EscapeNoQuote | pi-server/server.py:218 | text without quotes is unchanged |
| Escaping.EscapedQuotesAreEscaped | pi-server/server.py:218-219 | every quote in the escaped text is directly preceded by a backslash |
| Server.ServerState.constructor | pi-server/server.py:19 | the server starts with focus index -1 and no commands issued |
| Server.ServerState.FocusElement | pi-server/server.py:108-134 | returns true and sets the index (issuing the focus script) exactly when 0 <= index < length of the fresh query; otherwise it changes nothing |
| Server.ServerState.NavigateDirection | pi-server/server.py:136-170 | the result, new index and issued commands are those of NavigationStep for the old index |
| Server.ServerState.CloseChromium | pi-server/server.py:189-194 | issues `pkill chromium`, resets the index to -1, replies success |
| Server.ServerState.Navigate | pi-server/server.py:196-209 | `enter`/`back` issue `xdotool key Return`/`Escape` and keep the index; any other direction does one NavigationStep and replies with its outcome (200 either way, 500 on IndexError) |
| Server.ServerState.InputText | pi-server/server.py:211-220 | empty text replies 400 and issues nothing; otherwise it issues `xdotool type "<escaped>"` and replies success; the index is unchanged |
| Server.ServerState.OpenUrl | pi-server/server.py:222-246 | an empty URL replies 400 and issues nothing; otherwise it checks for the browser, starts it if absent, sets the location and re-injects the overlay; the index is unchanged |
| Server.NoElementsNoMove | pi-server/server.py:139-141 | an empty query fails and leaves the index unchanged |
| Server.Bootstrap | pi-server/server.py:143-145 | with index < 0 and elements present, for any direction, the index becomes 0 and the step returns whether the fresh query is non-empty, focusing element 0 in that case and nothing otherwise |
| Server.MoveQualifies | pi-server/server.py:147-168 | a successful move from a focused element goes to the Target, which qualifies, differs from the old index and is in range of the fresh query |
| Server.FailureKeepsIndex | pi-server/server.py:139-170 | from a focused element, a step that does not succeed leaves the index unchanged and focuses nothing |
| Server.MoveIff | pi-server/server.py:147-170 | from a valid focused index, a step succeeds iff some element qualifies and the winner is in range of the fresh query |
| Server.UnknownDirectionFails | pi-server/server.py:157-170 | an unknown direction from a valid focused index fails with the index unchanged |
| Server.TypeCommandArgument | pi-server/server.py:218-219 | the typing command is `xdotool type "` + escaped text + `"`; its length is fixed by the quote count, and unescaping its argument gives back the text |

## Left out

- Flask routing, JSON parsing and CORS (`server.py:12-16`) are not modelled. A reply is its success flag and status code. The human-readable messages are dropped.
- `run_command`, `os.system`, `pgrep`, `pkill`, `xdotool` and `time.sleep` are not modelled. Each command is a `Command` value appended to the log, and its exit status is not used (the source ignores it everywhere except `pgrep`, which is the `running` input).
- `get_cdp_url` and `execute_js` (the WebSocket transport) are not modelled. Each query result is an input sequence, and a failed transport is the empty sequence.
- The JavaScript of the element query, the focus script and the highlight overlay runs in the browser and is not modelled. Whether the focus script finds an element is not modelled.
- Server.ServerState.FocusElement: the focus script (`server.py:116-120`) indexes its own list, filtered without the `top/left >= 0` test of the element query, so the element `FocusScript(j)` focuses need not be `elements[j]` even when the DOM is unchanged; the model records only the index sent.
- `find_elements` (`server.py:104-105`) reads `resp['result'].get('value', [])`, but a `Runtime.evaluate` reply of the Chrome DevTools Protocol holds the value at `resp['result']['result']['value']`; as written the query therefore always yields `[]` and every directional navigation fails (the empty-query case, `Server.NoElementsNoMove`). The model takes the query result as an input and covers both the intended and the as-written behaviour.
- `open_chromium` and `/api/open` (process launch) are reduced to one `LaunchBrowser` command inside `OpenUrl`. The `POST` to the debugger endpoint in `open_url` is a no-op and is not modelled.
- Server.ServerState.OpenUrl: does not model that the URL is pasted into the script without escaping; the command records the URL itself.
- Server.ServerState.InputText: does not model how the shell reads the double-quoted argument (backslash, `$` and backtick stay special); only the quote escaping is modelled.
- `/api/click` (one `xdotool key Return`) and `/api/status` (reads the `pgrep` output and changes no state) are not modelled.
- Floating point is modelled as exact `real`, so NaN, infinities and rounding are not captured. Distances are compared by their squares instead of through `sqrt`.
- Concurrency is not modelled: the handlers run one at a time, as the single-process server does for one client.
- The Android client (`MainActivity.kt`, `RetrofitClient.kt`, `RemoteApiService.kt`) is UI and HTTP-client wiring and is not part of this model.
