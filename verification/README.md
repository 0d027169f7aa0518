# Location offers: a Dafny model

This project models the decision logic of a small location-offers system. It is written in Dafny and proves properties of that logic. The system has two parts:

- **A Python backend.** It receives location events from devices and keeps a per-device deduplication store. Its relational schema holds devices, pings, offers and deliveries. It also has a stub rule deciding when an area should trigger an offer.
- **A React dashboard.** It draws density hexagons on a Mapbox map, refreshes them with random jitter and shows summary statistics. It also offers a geocoding search bar, and a map panel with geolocation and markers.

One module per source file:

| module | models |
|---|---|
| `Ingest` | `backend/app/main.py`: the store `device_events`, the duplicate check, store-and-prune, the event handler and its event id, `get_offers` |
| `IngestTz` | the same handler when timestamps carry a UTC offset (see Findings) |
| `Schemas` | `backend/app/schemas.py`: Pydantic validation of the four bodies, with bounds, required fields and defaults |
| `Models` | `backend/app/models.py`: the four tables as an in-memory database. A value too long for its VARCHAR column refuses the insert before any id is drawn. Otherwise the insert draws an id from the table's sequence and then checks NOT NULL, UNIQUE and the foreign keys. Deletes cascade. |
| `Geo` | `backend/app/geo.py`: the affluent-cell and weather stubs, and the trigger rule over an abstract H3 indexer |
| `GeoJson` | the GeoJSON shapes the page builds and the map reads |
| `Dashboard` | `frontend/pages/index.tsx`: the seed pings, the hexagon encoder, the jitter, the statistics, the refresh tick |
| `MapPanel` | `frontend/components/MapPanel.tsx`: the source and layers, the colour ramp, the update guard, geolocation, markers, teardown |
| `SearchBar` | `frontend/components/SearchBar.tsx`: the error classifier, the search, and the handlers as state transitions |
| `Text`, `Decimal`, `Common` | JavaScript `includes`/`trim`/`length`, decimal numerals, and `Option`/`Result` |

**Inputs.** Clocks, randomness, trigonometry and the outcome of each network request are inputs:

- `now` is a parameter.
- `Math.random()` draws are a sequence of reals.
- `Math.PI`, `cos` and `sin` are the fields of a `Trig` value.
- Each `fetch` outcome is an `Env` value.

**Values.** Each component's state is an immutable value, and each handler is a function from state to state.

## Model

| member | source | states |
|---|---|---|
| Ingest.IsDuplicateEvent | backend/app/main.py:28-48 | Reports a duplicate exactly when the same device has a retained timestamp within 30 s of the new one, in either direction and inclusive. A device with no entry is never a duplicate. |
| Ingest.Put | backend/app/main.py:62 | Assigning by timestamp leaves the new event present. Every entry with a different timestamp is kept. Every other entry of the result has a different timestamp, so the event replaces any entry with its timestamp. With no clash the event is appended. |
| Ingest.KeepAfter | backend/app/main.py:65-70 | The pruning comprehension keeps exactly the entries stamped strictly after the cutoff. |
| Ingest.StoreLocationEvent | backend/app/main.py:51-70 | Only the event's device entry changes, and its key is added if new. Every retained stamp is after now minus one hour. The new event survives exactly when it is after the cutoff. Older entries survive exactly when they are after the cutoff and not overwritten. |
| Ingest.TruncateTowardZero | backend/app/main.py:99 | `int()` of the POSIX time has magnitude within one of the time, never above it, with the same sign. |
| Ingest.EventIdRoundTrip | backend/app/main.py:99 | The event id `event_<device>_<int(ts)>` decodes back to the device id, even one containing `_`, and the truncated second. |
| Ingest.HandleLocationEvent | backend/app/main.py:73-100 | Success holds exactly when the event is not a duplicate. A duplicate gets success false, no id and the duplicate message, with the store unchanged. Otherwise the event is stored and the answer carries the processed message and the id `event_<device>_<int(ts)>`, which decodes back to (device, int(ts)). |
| Ingest.OtherDevicesNeverCount | backend/app/main.py:39-48 | The duplicate decision depends only on the sending device's own entry. |
| Ingest.ResubmissionIsDuplicate | backend/app/main.py:44-70 | After an accepted event inside the retention window, any later event of the same device within 30 s of it is rejected, whatever `now` is later. |
| Ingest.StoreStaleTwice | backend/app/main.py:59-70 | Storing an event at or before the cutoff a second time leaves the store as it was. |
| Ingest.StaleEventIsNotRemembered | backend/app/main.py:83-100 | An accepted event older than an hour is pruned at once. Resending it is accepted again with the same id and the same resulting store. |
| Ingest.HandlePreservesInvariants | backend/app/main.py:83-91 | The handler keeps every retained event under its own device. A device's retained timestamps stay pairwise more than 30 s apart. |
| Ingest.GetOffers | backend/app/main.py:109-124 | Echoes the device id, with no offers and a total count equal to the number of offers, which is 0. |
| IngestTz.ScanAsWritten | backend/app/main.py:44-46 | When all keys share the new timestamp's awareness, the scan never raises. Whenever it answers, it answers whether some key lies within 30 s. It raises only when some key's awareness differs, and then with the subtraction's TypeError text `can't subtract offset-naive and offset-aware datetimes`. |
| IngestTz.PutAsWritten | backend/app/main.py:62 | An entry under an equal key (same instant and same awareness) is replaced in place; every other entry stays where it is. With no equal key the entry is appended, and nothing else is added. |
| IngestTz.PruneAsWritten | backend/app/main.py:65-70 | The comparison with the naive cutoff raises exactly when some key carries an offset, with the text `can't compare offset-naive and offset-aware datetimes`. Otherwise it keeps exactly the entries after the cutoff, in order. |
| IngestTz.HandleAsWritten | backend/app/main.py:81-106 | A rejection leaves the store unchanged. A success carries the event id. A server error carries the subtraction's detail or the comparison's detail. The subtraction's detail leaves the store unchanged. The comparison's detail leaves the event stored. |
| IngestTz.OffsetAfterNaiveCounterexample | backend/app/main.py:44-45 | A device holds a naive stamp. An event stamped in UTC arrives an hour later. The client gets the 500 with `Failed to process location event: can't subtract offset-naive and offset-aware datetimes`, and nothing is stored. |
| IngestTz.AwareEventFailsButIsStored | backend/app/main.py:62-70 | Take a non-duplicate event with an offset, on a device whose keys all carry offsets. The client gets the 500, yet the event is recorded and nothing of the device is pruned. |
| IngestTz.FirstAwareEventCounterexample | backend/app/main.py:83-106 | A device's first event stamped in UTC gets a 500 while being stored. Its retry 5 s later is answered as a duplicate. |
| IngestTz.NaiveStampsNeverFail | backend/app/main.py:65-70 | With naive timestamps only, the handler as written always responds. |
| IngestTz.HandleNormalized | backend/app/main.py:73-100 | The corrected handler keys and compares datetimes by their instants, and it never answers with a 500. It accepts exactly when no key of the device is within 30 s. A rejection leaves the store unchanged. An accepted event is retained exactly when it is inside the retention window. Other devices are untouched. |
| IngestTz.NormalizedAgreesWithIngest | backend/app/main.py:73-100 | Read as instants on one clock, the corrected handler gives the reply and the store of the one-clock handler `Ingest.HandleLocationEvent`, with or without an offset on the event. |
| IngestTz.AsWrittenAgreesOnNaiveStores | backend/app/main.py:81-106 | When the device's stamps and the new one are all naive, the handler as written gives the same reply and store as the one-clock handler. |
| IngestTz.FirstAwareEventCorrected | backend/app/main.py:83-100 | The run that fails as written, under the correction: the first UTC-stamped event is accepted with its id, and its retry is a duplicate. |
| Schemas.BoundErrors | backend/app/schemas.py:9-10 | A `ge`/`le` field yields no error exactly when it is inside the inclusive bounds, or absent and optional. Every error it yields is located at that field. |
| Schemas.ParseLocationEvent | backend/app/schemas.py:6-11 | Validation succeeds exactly when device_id and ts are present, lat is in [-90, 90] and lon is in [-180, 180], inclusive. The result carries the inputs. On failure there is an error at each offending field and at no other. |
| Schemas.ParseLocationEventResponse | backend/app/schemas.py:14-18 | success and message are required. event_id is optional, defaults to None and never errs. |
| Schemas.ParseOffer | backend/app/schemas.py:21-27 | discount may be absent. When present it must lie in [0, 100], and the discount error appears exactly when it does not. The four other fields are required. |
| Schemas.ParseOffers | backend/app/schemas.py:33 | The list validates exactly when every offer does, giving the offers in order. |
| Schemas.ParseOffersResponse | backend/app/schemas.py:30-34 | device_id is required. offers defaults to the empty list and total_count to 0. Every accepted offer is valid, and the offers are the given ones, each validated, in order. |
| Geo.LatLonToH3 | backend/app/geo.py:5-17 | Without a resolution the indexer is asked for resolution 9. |
| Geo.IsAffluent | backend/app/geo.py:20-38 | True exactly for `8928308280fffff` and `8928308281fffff`. |
| Geo.CurrentWeather | backend/app/geo.py:41-56 | Reports `drizzle` for every position. |
| Geo.HandleLocation | backend/app/geo.py:59-80 | Looks at the resolution-9 cell. It triggers exactly when that cell is one of the two affluent cells. It enqueues nothing. |
| Geo.TriggerDependsOnlyOnCell | backend/app/geo.py:73-76 | Two positions in the same cell get the same trigger decision, whatever the device. |
| Models.EmptyDbValid | backend/app/models.py:17-128 | The empty database satisfies every constraint. |
| Models.Varchar | backend/app/models.py:26-27 | PostgreSQL's assignment to VARCHAR(n): a value is accepted exactly when it fits or everything past n characters is a space. A fitting value is stored unchanged. A longer one is stored as its first n characters. |
| Models.PaddingTruncated | backend/app/models.py:26-27 | A value of exactly n characters followed by spaces only is stored without the spaces. |
| Models.OverflowRefused | backend/app/models.py:26-27 | A value with a character other than a space past n characters is refused. |
| Models.InsertDevice | backend/app/models.py:20-31 | Inserted exactly when the phone is non-null, acceptable for VARCHAR(20), and, as stored, not already used. A phone VARCHAR(20) refuses gives the length error. The new row holds the stored phone, a fresh id and `now` as created_at. No other table changes. All constraints still hold. A phone too long refuses the insert before an id is drawn, and the database is unchanged. Every other attempt advances the device id sequence by one, and a refusal changes nothing else. |
| Models.RefusedInsertSpendsId | backend/app/models.py:25 | After a device insert refused for a NULL or a phone in use, the next device inserted gets the id after the one the refused statement drew, so ids have gaps. After a refusal for length it gets the id the refused statement would have had. |
| Models.IdGapWitness | backend/app/models.py:25-27 | On the empty database, "a", "a" again and then "b" gives "b" id 3. |
| Models.NoGapAfterLengthRefusal | backend/app/models.py:25-27 | On the empty database, a 21-digit phone and then "b" gives "b" id 1. |
| Models.PaddedPhoneCollides | backend/app/models.py:26-27 | A registered 20-character phone sent again with trailing spaces hits the unique index rather than the length limit. |
| Models.InsertPing | backend/app/models.py:45-60 | Inserted exactly when device_id, h3_hex and ts are non-null, h3_hex is acceptable for VARCHAR(16) and the device exists. The new row holds the stored h3_hex. No other table changes. All constraints still hold. An h3_hex too long refuses the insert with the length error before an id is drawn, and the database is unchanged. Every other attempt advances the ping sequence, and a refusal changes nothing else. |
| Models.InsertOffer | backend/app/models.py:75-85 | Inserted exactly when h3_hex, title and body are given, h3_hex and title are acceptable for VARCHAR(16) and VARCHAR(200), and weather_trigger, if given, is acceptable for VARCHAR(50). The new row holds the stored values, the body unchanged and affluent_only defaulting to False. The existing offers and the other tables are unchanged. All constraints still hold. A refusal for length happens exactly when a given h3_hex, title or weather_trigger is too long; it comes before an id is drawn and leaves the database unchanged. Every other attempt advances the offer sequence, and a refusal changes nothing else. |
| Models.DeliverOffer | backend/app/models.py:96-124 | Inserted exactly when both ids are non-null, both rows exist, and the device has not already received that offer. All constraints still hold. Every attempt advances the delivered-offers sequence, since all its refusals happen during execution, and a refusal changes nothing else. |
| Models.DeleteDevice | backend/app/models.py:34-39 | Removes the device together with exactly its pings and its deliveries. Everything else stays, and the result leaves no dangling reference. |
| Models.DeleteOffer | backend/app/models.py:88-90 | Removes the offer together with exactly its deliveries. Devices and pings stay, and all constraints still hold. |
| Models.InsertThenDeleteDevice | backend/app/models.py:20-39 | Deleting a device just inserted restores the database, apart from the advanced id sequence. |
| Dashboard.HexRing | frontend/pages/index.tsx:29-37 | The ring has 7 positions, and the last equals the first. Corner i, for i < 6, is (lng + 0.01·cos(iπ/3), lat + 0.01·sin(iπ/3)). |
| Dashboard.GenerateHexGeoJson | frontend/pages/index.tsx:23-57 | One feature per ping, in order. Each has a single closed 7-point ring around its ping. Its properties carry density and hexId unchanged and coordinates `[lng, lat]`, so the ping reads back from the feature. |
| Dashboard.JitterDensity | frontend/pages/index.tsx:86 | The new density is d + (r − 0.5)·50 when that is not negative, and 0 otherwise. It is never negative. |
| Dashboard.Jitter | frontend/pages/index.tsx:84-87 | Keeps the length, and every ping's lat, lng and hexId. Each density is jittered by that ping's own draw. |
| Dashboard.JitterStep | frontend/pages/index.tsx:86 | With a draw in [0, 1), a density moves by less than 25 upwards and at most 25 downwards. |
| Dashboard.Refreshes | frontend/pages/index.tsx:80-99 | Across any number of refreshes, hex ids and positions never change. After at least one refresh, every density is non-negative. |
| Dashboard.RefreshesDrift | frontend/pages/index.tsx:82-89 | After n refreshes each density is within 25·n of its start. |
| Dashboard.Round | frontend/pages/index.tsx:206 | `Math.round` picks the integer n with n − ½ ≤ x < n + ½, so halves round up. |
| Dashboard.AvgDensity | frontend/pages/index.tsx:206 | With no pings there is no average (the page shows NaN). Otherwise it is the mean rounded half up. |
| Dashboard.MaxDensity | frontend/pages/index.tsx:212 | With no pings there is no maximum (the page shows -Infinity). Otherwise it is at least every density and equal to one of them. |
| Dashboard.AverageWithinMaximum | frontend/pages/index.tsx:206-212 | With non-negative densities the shown average is non-negative and at most the maximum plus rounding. |
| Dashboard.SeedStatistics | frontend/pages/index.tsx:9-20 | The seed has 10 hexes with densities summing to 1905. Avg shows 191 (190.5 rounded up) and Max shows 300. |
| Dashboard.Tick | frontend/pages/index.tsx:82-95 | One interval tick jitters the pings, leaving every density non-negative. Once the map is ready, the hex source holds one feature per new ping, in order, each drawn as that ping's closed hexagon and reading back to the ping. Nothing else in the panel changes. Before that, the panel is untouched. |
| MapPanel.ColorStopsTable | frontend/components/MapPanel.tsx:59-74 | 11 stops, at thresholds 50·i and strictly increasing. 0 ↦ #313695, 250 ↦ #ffffcc, 500 ↦ #a50026. |
| MapPanel.Ramp | frontend/components/MapPanel.tsx:59-74 | Below the first stop it is the first colour, and above the last it is the last colour. In between, a blend of the two bracketing stops' colours at fraction t in (0, 1). |
| MapPanel.RampAtStop | frontend/components/MapPanel.tsx:63-73 | At each threshold the colour is exactly that stop's colour. |
| MapPanel.FillColor | frontend/components/MapPanel.tsx:56-76 | A feature without density gets #313695. Density ≤ 0 gives #313695, ≥ 500 gives #a50026, and 250 gives #ffffcc. |
| MapPanel.OnLoad | frontend/components/MapPanel.tsx:38-92 | On load, the empty `hexes` source is added, then the fill layer and then the border layer over it. Fill opacity is 0.7. The border is white, width 1, opacity 0.5. These values do not depend on the data. |
| MapPanel.UpdateHexes | frontend/components/MapPanel.tsx:107-114 | The source's data is replaced only when the map exists, its style is loaded and the source is there. Otherwise nothing changes. |
| MapPanel.UpdateBeforeLoadIsDropped | frontend/pages/index.tsx:102-107 | An update sent before the map has loaded is dropped. After load, an update lands. |
| MapPanel.Teardown | frontend/components/MapPanel.tsx:94-104 | Unmounting removes both referenced markers and the map. With tracked markers, none remains. |
| MapPanel.AtMostOneMarkerPerKind | frontend/components/MapPanel.tsx:129-150 | With tracked markers, two markers of one kind on the map are the same marker. |
| MapPanel.PlaceMarker | frontend/components/MapPanel.tsx:215-259 | Placing a marker removes the previous one of its kind and adds exactly one new one at the position. Markers of the other kind are left alone. The camera flies there, and the tracking invariant is kept. |
| MapPanel.GeolocationErrorMessage | frontend/components/MapPanel.tsx:186-199 | Codes 1, 2 and 3 map to their own messages. Any other code maps to 'Unable to get your location.', both directions. |
| MapPanel.GetCurrentLocation | frontend/components/MapPanel.tsx:116-206 | Without support, the error is set to the unsupported message and no request is made. Otherwise the error is cleared first and the request uses high accuracy, 10000 ms timeout and 60000 ms maximum age. |
| MapPanel.OnPositionSuccess | frontend/components/MapPanel.tsx:125-158 | With a map, the user marker is replaced at (longitude, latitude) and the camera targets it at zoom 15. The search marker is untouched. |
| MapPanel.OnPositionError | frontend/components/MapPanel.tsx:186-200 | Only the location error changes, to the code's message. |
| MapPanel.PerformSearch | frontend/components/MapPanel.tsx:210-259 | Without a map, nothing happens. Otherwise the search marker is replaced at the coordinates and the camera targets it at zoom 14. The user marker is untouched. |
| MapPanel.SearchLocation | frontend/components/MapPanel.tsx:296-305 | Without a map, nothing happens. When the map and its style are loaded, the search is performed now. Otherwise one retry is scheduled. |
| MapPanel.MarkerKindsIndependent | frontend/components/MapPanel.tsx:128-252 | After a position fix and then a search, exactly one marker of each kind is on the map, and the user marker is still the one the fix placed. |
| SearchBar.GetErrorWithTips | frontend/components/SearchBar.tsx:25-67 | The first matching pattern wins, in the order: token, '401', '403', '429', 'network'/'fetch'. The message is Configuration Error exactly when the token pattern occurs. With no pattern, the raw message and the connectivity tip are returned. |
| SearchBar.MissingTokenIsConfigurationError | frontend/components/SearchBar.tsx:82-84 | 'Mapbox access token not found' classifies as Configuration Error. |
| SearchBar.OtherThrownValueIsGeneric | frontend/components/SearchBar.tsx:99 | A thrown non-Error becomes 'Search failed', which keeps its own text and gets the connectivity tip. |
| SearchBar.FailedFetchMessage | frontend/components/SearchBar.tsx:92 | The non-OK message starts with 'Failed to fetch search results: '. |
| SearchBar.DigitPatternInFailedFetch | frontend/components/SearchBar.tsx:92 | For a three-digit status, a '4xx' pattern occurs in the message only as the status numeral or inside the status text. |
| SearchBar.StatusMessageClassification | frontend/components/SearchBar.tsx:35-61 | For a non-OK status whose text contains no pattern, 401, 403 and 429 get their categories. Every other status is a Network Error, because the message says 'fetch'. |
| SearchBar.Failure | frontend/components/SearchBar.tsx:82-95 | Gives what is thrown for each way the search can fail: a missing or empty token, a rejection, a non-OK status, or an unreadable body, which throws the parse error. A search fails exactly unless an OK response has a readable body. |
| SearchBar.Fail | frontend/components/SearchBar.tsx:98-101 | The catch records the classified error, empties the results and hides the dropdown. |
| SearchBar.SearchLocations | frontend/components/SearchBar.tsx:70-105 | A query under 3 UTF-16 units clears the results and hides the dropdown without a request. A request goes out exactly when the query is long enough and a token exists. A success shows `features` or []. A failure records the error, clears the results and hides the dropdown. Loading is off afterwards. |
| SearchBar.MissingTokenSearch | frontend/components/SearchBar.tsx:80-84 | A missing token means no request and a Configuration Error. |
| SearchBar.ErrorStatusSearch | frontend/components/SearchBar.tsx:90-93 | An error status ends in the category given by StatusMessageClassification. |
| SearchBar.HandleInputChange | frontend/components/SearchBar.tsx:108-126 | The query follows the input, and the pending search is cancelled. A value that is not blank schedules a search of its trimmed form and nothing else. A blank value clears the results and hides the dropdown. |
| SearchBar.TimerFires | frontend/components/SearchBar.tsx:119-121 | The fired timer searches the scheduled query and is then spent. With nothing scheduled, nothing happens. |
| SearchBar.HandleResultSelect | frontend/components/SearchBar.tsx:129-138 | The query becomes the place name, the results empty and the dropdown closes. Exactly (place name, centre) is reported. |
| SearchBar.HandleSubmit | frontend/components/SearchBar.tsx:141-146 | Submitting searches the trimmed query, unless it is blank, in which case nothing changes. |
| SearchBar.ClickOutside | frontend/components/SearchBar.tsx:150-153 | A press outside the input hides the dropdown and changes nothing else. |
| SearchBar.PressOn | frontend/components/SearchBar.tsx:149-160 | The document `mousedown` listener counts only the input as inside. A press on a result button leaves no result listed. Only `showResults` can change. |
| SearchBar.ClickOn | frontend/components/SearchBar.tsx:218-221 | A click selects exactly when it lands on a result button that is on the page, and then does what `handleResultSelect` does with that result. Otherwise nothing changes. |
| SearchBar.MouseClick | frontend/components/SearchBar.tsx:150-153 | A mouse click, a press and then a click, never selects a result. The state is what the press left, so a click on a result only closes the dropdown. |
| SearchBar.MouseClickCounterexample | frontend/components/SearchBar.tsx:150-153 | With "London" listed, a mouse click on it closes the dropdown and selects nothing. A keyboard activation, or a mouse click under the corrected listener, selects it and reports its name and centre. |
| SearchBar.PressOnCorrected | frontend/components/SearchBar.tsx:149-160 | Under the corrected listener, a press on the input or in the dropdown changes nothing. A press elsewhere closes the dropdown as before. |
| SearchBar.MouseClickCorrected | frontend/components/SearchBar.tsx:129-138 | Under the corrected listener, a mouse click selects exactly when it lands on a listed result, with `handleResultSelect`'s effect. |
| SearchBar.CorrectedClickAgrees | frontend/components/SearchBar.tsx:149-160 | Under the correction, a mouse click on a result equals a keyboard activation. Anywhere else it equals the click as written. |
| SearchBar.ErrorPanelNeverShown | frontend/components/SearchBar.tsx:206-216 | From the initial state, across any sequence of events handled one at a time, no error is shown while the dropdown is open. The error panel never appears. |
| SearchBar.SearchLocationsShowingErrors | frontend/components/SearchBar.tsx:98-101 | The corrected failure path records the error with the dropdown open, so the error panel shows. In every other case it behaves like SearchLocations. |
| SearchBar.MissingTokenShownWhenCorrected | frontend/components/SearchBar.tsx:206-216 | With the correction, a missing token is shown as a Configuration Error in the dropdown. |
| Text.Trim | frontend/components/SearchBar.tsx:118 | `trim` removes exactly the leading and trailing ECMAScript whitespace. The result is empty exactly when the input is all whitespace. |
| Text.TrimIdempotent | frontend/components/SearchBar.tsx:118-120 | Trimming a trimmed value changes nothing. |
| Text.Utf16Length | frontend/components/SearchBar.tsx:71 | `length` counts UTF-16 units. It lies between the character count and twice that, and equals the count exactly when every character is in the Basic Multilingual Plane. |
| Decimal.IntToStringRoundTrip | backend/app/main.py:99 | The decimal numeral of every integer parses back to it. |

## Left out

- backend/app/deps.py and backend/app/workers.py are not part of this model. They are database session plumbing and a Celery task that only prints.
- The FastAPI routing, `/health` and `/` (backend/app/main.py:133-157) are not modelled. They are framework wiring and read the wall clock.
- The H3 library is an arbitrary function parameter. Its cell geometry is not modelled.
- frontend/components/GlassContainer.tsx, OfferCard.tsx and HexTooltip.tsx are not modelled. They are presentation only.
- Mapbox rendering is not modelled: popups and their HTML, `toFixed`, marker styling, the `flyTo` animation and its duration, and the popup toggle after 2500 ms. The camera is reduced to its target centre and zoom.
- The debounce and retry delays (300 ms, 1000 ms, 3000 ms) are not modelled. Each timer is the action it will run, and the state is a value between events.
- Overlapping requests are not modelled. The model treats each search as settling before the next event. Interleaved searches could leave a stale error under an open dropdown.
- `handleLocationSelect` (frontend/pages/index.tsx:74-78) is not modelled separately. It only forwards to `MapPanel.SearchLocation`.
- The "No results" message (frontend/components/SearchBar.tsx:256) is not modelled. It is a render condition over state the model already exposes.
- The request URL, with `encodeURIComponent`, `limit=5` and the types list, is not modelled. `await response.text()` on line 91 is read only for its side effect; its own failure is not modelled.
- Floating point is replaced by reals throughout: no NaN, no infinities, no rounding error.
- Ingest.EventId: `timestamp()` is modelled as the event's POSIX seconds. For a naive datetime, Python reads it in the server's local time zone, which is not modelled.
- Ingest.StoreLocationEvent: timestamps are reals on one clock. The aware/naive distinction lives only in `IngestTz`.
- Schemas.ParseLocationEvent: type coercion is assumed already done. Strings to numbers and ISO text to datetimes are not modelled, and neither are Pydantic's error messages; errors carry only a location and a kind.
- Models.InsertDevice: the model reports violated constraints in a fixed order (length, not-null, unique, foreign key). When several constraints are violated, PostgreSQL's choice of which one to report is not modelled. The same holds for InsertPing, InsertOffer and DeliverOffer.
- Models.InsertDevice: the length check is taken to run while the statement is planned, which is where PostgreSQL folds it when the driver sends the values as literals, as psycopg2, the default driver for a `postgresql://` URL (backend/app/deps.py:15), does. A driver that binds parameters on the server would check length after `nextval`, so a length refusal would spend an id. That variant is not modelled. The same holds for InsertPing and InsertOffer.
- Models.Varchar: only PostgreSQL's assignment rule is modelled; the database the source targets is PostgreSQL (backend/app/deps.py:15). An explicit cast, which truncates silently, does not occur in the source.
- MapPanel.Teardown: the source leaves `map.current` pointing at the removed map; the model's `view := None` means "no usable map", which is the same after unmount.
- Models.DeleteDevice: SQLAlchemy's `delete-orphan` on detaching a ping from a loaded device is not modelled. Only deleting a row cascades.
- Dashboard.AvgDensity: NaN for an empty list is `None`.
- Dashboard.MaxDensity: -Infinity for an empty list is `None`.
- MapPanel.Ramp: a blend is the pair of stop colours and the fraction. The RGB arithmetic Mapbox performs is not modelled.
- MapPanel.OnLoad: the map's `load` event is taken to mean both `loaded()` and `isStyleLoaded()` are true from then on.
- `generateHexGeoJson` does not mutate its input. This holds by construction: sequences are values.

## Findings

| source | as written | input that shows it | evidently intended | confidence | as-written member | corrected member |
|---|---|---|---|---|---|---|
| backend/app/main.py:44-45 | The duplicate scan subtracts each stored key from the new timestamp. When the device holds a naive stamp and the new one carries an offset, the subtraction raises TypeError and the client gets HTTP 500 instead of an answer. | device `dev-1` holding a naive stamp 2024-05-01T12:00:00, then an event with `ts` = 2024-05-01T13:00:00Z | Timestamps are compared as instants whether or not they carry an offset. | medium, not executed | IngestTz.OffsetAfterNaiveCounterexample | IngestTz.HandleNormalized |
| backend/app/main.py:62-70 | The prune compares each stored key with the naive `datetime.now() - 1h` after the event has been inserted. A `ts` with a UTC offset raises TypeError there, so the client gets HTTP 500. The event stays stored and the device is never pruned again. A retry within 30 s is answered as a duplicate. | device `dev-1`, first event with `ts` = 2024-05-01T12:00:00Z, then the same event again 5 s later | Offset timestamps are compared with the clock as instants. An event is accepted or rejected, never stored behind a 500. | medium, not executed | IngestTz.FirstAwareEventCounterexample | IngestTz.HandleNormalized |
| frontend/components/SearchBar.tsx:98-101 | The catch hides the dropdown (`setShowResults(false)`). The dropdown is the only place the error's message and tips render (line 206), so the error panel never appears after a failure. | a query of 3 or more characters with no access token configured | After a failed search, the dropdown opens on the error message and its tips. | high, not executed | SearchBar.ErrorPanelNeverShown | SearchBar.SearchLocationsShowingErrors |
| frontend/components/SearchBar.tsx:150-153 | The document `mousedown` listener tests only the `<input>`, so a press on a result button counts as outside and hides the dropdown. React applies that before the `click`, so the button is gone and its `onClick` (line 221) never runs: a mouse cannot select a result. | results for "London" listed; the user clicks the first one with the mouse | A press inside the dropdown keeps it open, and the click selects the result, as a keyboard activation does. | medium, not executed; it relies on React committing the press's state update before the click | SearchBar.MouseClickCounterexample | SearchBar.MouseClickCorrected |
