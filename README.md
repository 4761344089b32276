# Plex-aware smart room: a verified model of the presence monitor

The program polls a Plex media server for its active sessions. It decides whether a
movie or an episode is playing. When that flag changes it switches "cinema mode":
it dims the lights on start, restores them on stop, and switches a fan off on stop.
It also serves a now-playing view and a shared-secret endpoint that pauses every
player when motion is detected.

This project models the decision logic of `monitor.py` in Dafny and proves what
that logic promises. The Plex, Flask and HTTP calls are abstracted away:

- a session query is an input `Option<seq<Session>>`, where `None` is a query that raised;
- the outcome of each `p.pause()` is an input function `pauseSucceeds`;
- the outbound GETs of cinema mode are returned as a list of URLs;
- the configuration strings (client name, lights host, fan host, motion secret) are parameters.

Modules:

- `Wrappers`: the `Option` type.
- `Selection`: the generic "keep some elements and map them, in order" used by the now-playing view and by pausing.
- `Sessions`: the session and player view, the client-name filter, and the flattening of all players in session-then-player order.
- `PlaybackDetection`: `any_video_playing` and `api_is_playing`.
- `Cinema`: `trigger_cinema_mode`.
- `NowPlaying`: `api_now_playing`.
- `Pause`: `pause_all` and `api_pause_from_motion`.
- `Monitor`: the polling loop. A `Monitor` class holds the `playing` and `lastTitle` fields. It is proved against a pure step function and a fold over a finite list of poll results.

Each nested loop of the source is a method with `for` loops. Each such method is
proved equal to a specification function over the flattened players. The lemmas
then characterise those functions.

Three behaviours of the code that are easy to misread:

- The player's name is its `title`, falling back to its `product` when the title is empty (monitor.py:57, 72, 103).
- The `player` field of a now-playing item is the player's own `title`, with no product fallback. The filter uses the fallback name, so the field can be empty even for a player that matched the filter by its product.
- Detection only looks at movie and episode sessions. The now-playing view and pausing look at sessions of every kind, and pausing ignores the player's state.

## Model

| member | source | states |
|---|---|---|
| `PlaybackDetection.AnyVideoPlaying` | monitor.py:44-61 | The nested scan with early return yields exactly the detection result. A failed query yields `(false, None)`. The flag is true exactly when a title is returned. |
| `PlaybackDetection.DetectionSpec` | monitor.py:50-61 | Playback is reported iff some player of some movie/episode session has state "playing" (ignoring case) and passes the client filter. A negative report has no title. A positive one carries the session title of the first such player in session-then-player order, and no earlier player qualifies. |
| `PlaybackDetection.FirstDetectedIsFirst` | monitor.py:50-60 | First-match over the flattened players: nothing is found iff no player qualifies. A found title belongs to a qualifying player, and every earlier player fails. |
| `PlaybackDetection.MatchIsFirst` | monitor.py:54-60 | A qualifying player `j` of session `i`, with none before it, makes the whole scan return session `i`'s title (the early `return`). |
| `PlaybackDetection.NonVideoNeverDetected` | monitor.py:51 | A session whose kind is neither movie nor episode never yields a match. |
| `PlaybackDetection.IsPlaying` | monitor.py:80-83 | The status query answers true iff the query succeeded and some player qualifies for detection. |
| `PlaybackDetection.PlayingEpisodeIsDetected` | monitor.py:51-60 | One episode whose single player is playing, with no client filter, is reported as playing with its title. |
| `PlaybackDetection.FilteredOutEpisodeIsNotDetected` | monitor.py:56-59 | With a client filter set that the only player's name does not match (ignoring case), nothing is reported. |
| `Sessions.SlotsSplit` | monitor.py:50-52 | The flattening lists the players of earlier sessions first, then those of session `i` in player order, then those of later sessions. |
| `Sessions.SlotsMembership` | monitor.py:93-98 | A (session, player) pair occurs in the flattening iff the player belongs to one of the sessions. |
| `Selection.SelectPositions` | monitor.py:92-114 | The selection is exactly the kept elements in their original order. The positions are strictly increasing, every kept position appears, and each result is the image of its element. |
| `Cinema.CinemaModeUrls` | monitor.py:37-42 | A set lights host yields exactly one lights URL, ending in `dim` when on and `normal` when off. The wrong-mode URL never appears. The fan `off` URL appears iff the fan host is set and the mode is off. No other URL appears. The count is the sum of the two. No hosts means no URLs. |
| `Cinema.UrlsDiffer` | monitor.py:39-42 | The dim, normal and fan-off URLs are pairwise different, whatever the hosts, so each call is a distinct request. |
| `NowPlaying.ApiNowPlaying` | monitor.py:85-116 | The nested loops yield exactly the specified response. A failed query gives `{playing: false, items: []}`, and `playing` holds iff `items` is non-empty. |
| `NowPlaying.NowPlayingSpec` | monitor.py:92-114 | An item is listed iff it is the record of some player, in a session of any kind, whose lower-cased state is playing, paused or buffering and that passes the client filter. Every listed item carries such a state. |
| `NowPlaying.NowPlayingFlag` | monitor.py:116 | `playing` is true iff at least one player of some session is listed. |
| `NowPlaying.DetectionImpliesNowPlaying` | monitor.py:99-100 | Whenever detection reports playback, the now-playing view's `playing` is true. |
| `Pause.PauseAll` | monitor.py:63-78 | Every filter-passing player of every session is attempted, in order. Each attempt records its own outcome, so a failed pause does not stop later ones. A failed query attempts nothing. |
| `Pause.AttemptsOfSelection` | monitor.py:75-78 | Attempting every selected player gives exactly the selected players, each attempt carrying that player's own outcome. |
| `Pause.PauseTargetsSpec` | monitor.py:69-74 | A player is paused iff it belongs to some session and passes the client filter. Session kind and player state play no part. |
| `Pause.UnfilteredPausesEveryPlayer` | monitor.py:69-76 | Without a client filter, the targets are every player of every session, in order. |
| `Pause.PauseFromMotion` | monitor.py:118-125 | `ok` holds iff a secret is configured and the submitted one equals it exactly. Otherwise the status is 403 and nothing is attempted, which includes every case where no secret is configured. On a match the status is 200 and every target is attempted, even when there are none. |
| `Monitor.Monitor.constructor` | monitor.py:25-28 | The monitor starts not playing and with no title. |
| `Monitor.Monitor.Poll` | monitor.py:129-133 | A poll that matches the stored flag leaves the state untouched, with no notification and no URL. Otherwise the state becomes the new flag and title, there is exactly one notification carrying the new flag, and the URLs are those of cinema mode for it. |
| `Monitor.Monitor.PollEach` | monitor.py:127-134 | Polling a list of query results gives the final state and notifications of the pure run over their detections. The URLs are the cinema-mode URLs of each notification in turn. |
| `Monitor.NotificationsCountEdges` | monitor.py:129-133 | Over any list of poll results, the number of notifications equals the number of positions where the flag differs from the previous one. |
| `Monitor.NotificationsAlternate` | monitor.py:130-133 | The first notification differs from the starting flag and each differs from the one before. The last one equals the final flag. A run with no notification leaves the state unchanged. |
| `Monitor.RunFinalState` | monitor.py:130-132 | After a run, the state is unchanged if the flag never changed. Otherwise it is the flag and title of the last poll at which the flag changed. |
| `Monitor.RunEndsOnLastPoll` | monitor.py:130-131 | After any run, the stored flag is the flag of the last poll, or the starting flag when the run is empty. |

## Left out

- Flask routing, JSON serialisation and HTTP plumbing. Only the returned records and the 200/403 decision are modelled.
- A request body that is JSON but not an object, or a non-string `secret` value. The source either fails inside `payload.get` or applies `str()`; the model takes the secret field as an optional string.
- The `plexapi` calls (`PlexServer`, `plex.sessions()`, `p.pause()`). Sessions are an input, `None` standing for a query that raised. Pause outcomes are an input function.
- `requests.get` and `http_get`. Outbound calls are the returned URL list; status codes, timeouts and swallowed errors do not change anything the monitor does.
- The daemon thread, the `while True` loop and `time.sleep(5)`. The model has one iteration (`Poll`) and a run over a finite list of poll results (`PollEach`, `Run`).
- Environment and `.env` loading, `.strip()` of the settings, and the `SystemExit` on missing server settings. The configuration strings are parameters, already stripped.
- Python's Unicode `str.lower()`. Case-insensitive comparison uses ASCII lower-casing.
- `getattr` defaults for missing attributes (`"unknown"` kind and title, empty strings, no players). Every session and player field is taken as present and as a string, never `None`.
- Exceptions raised while scanning the sessions, such as `.lower()` on a `None` player state (monitor.py:53, 99). Only the session query itself is guarded. In the source such an error ends the polling thread for good, and in the two GET routes it becomes a server error. A `None` session title, which would make detection return `(True, None)`, cannot occur in the model.
- Concurrency between the polling loop and the request handlers. The query endpoints recompute from a fresh query and never read the monitor state.
