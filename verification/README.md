# Kidsafe: geofencing, alert log, mock user store and pairing in Dafny

A functional model of the logic in the Kidsafe family-safety dashboard. In the
app this logic sits behind React state and `localStorage`; here it is pure
functions over immutable data.

- **Geofencing.** Each location sample is compared against every safe zone.
  The "was inside" flag stored per (zone, user) key is read. Crossing a
  boundary in either direction emits an entry or exit alert and rewrites the
  flag. Anything else emits nothing and writes nothing.
- **Alert log.** It is newest first. New alerts go in front. Acknowledging sets
  the flag on every alert with the given id.
- **Safe zones.** The list supports append and remove-by-id.
- **Location state.** One tick of the sharing timer moves the user, stores the
  sample, pushes it onto a history capped at 100 entries, and runs
  geofencing. Sharing can be switched on and off. An SOS puts one `sos` alert
  in front of the log.
- **Mock user store.** It holds a list of accounts and a session slot.
  `signup` checks that the email is new. `login` looks up email and
  password. `logout` clears the session. `updateUser` merges fields into the
  session user and into the first stored record with the same id.
- **Pairing from the child's dashboard.** The pairing code field keeps only
  digits. The parent is looked up by a six-digit code. Each side's id is added
  to the other's `pairedWith` list unless it is already there.
- **Alert center view.** This covers the badge variant and badge label per
  alert type, the "New", "Resolved" and "Total" counters, and which alerts
  show an "Acknowledge" button.

Modules:

| file | module | what it holds |
|---|---|---|
| `options.dfy` | `Options` | `Option`, first-match search (`find`/`findIndex`) |
| `decimal.dfy` | `Decimal` | digit characters, `toString` of a natural number and its inverse |
| `auth.dfy` | `Auth` | users, accounts, signup/login/logout/updateUser |
| `alerts.dfy` | `Alerts` | the alert record, `addAlert`, `acknowledgeAlert` |
| `zones.dfy` | `Zones` | safe zones, `addSafeZone`, `removeSafeZone` |
| `geofence.dfy` | `Geofence` | membership flags, `checkGeofencing`, transition traces |
| `location.dfy` | `LocationContext` | history window, sharing switch, timer tick, `triggerSOS` |
| `pairing.dfy` | `Pairing` | the digit filter and `handlePairing` |
| `alerts_panel.dfy` | `AlertsPanel` | badge variant and label, counters, acknowledge buttons |

Several values become parameters:

- **Haversine distance.** This is the function parameter `dist`.
- **Random numbers.** Zone ids, alert ids and user ids are parameters. So is
  the pairing-code draw, as an integer below 900000. The location jitter takes
  two draws in [0, 1).
- **`Date.now()`.** This is the parameter `now`.

## Model

| member | source | states |
|---|---|---|
| `Options.FindIndex` | src/contexts/AuthContext.tsx:99 | the result is the first index whose element satisfies the predicate, and None exactly when no element does |
| `Decimal.Show` | src/contexts/AuthContext.tsx:71 | `toString` of a non-negative integer writes at least one ASCII digit and no leading zero except for "0" itself; `Decimal.ValueShow` makes it the inverse of reading the digits back |
| `Decimal.ValueShow` | src/contexts/AuthContext.tsx:71 | reading back the decimal digits that `toString` writes gives the number |
| `Decimal.SixDigits` | src/contexts/AuthContext.tsx:71 | every integer in [100000, 999999] prints as exactly six digits that read back as itself |
| `Auth.PairingCodeFor` | src/contexts/AuthContext.tsx:71 | the parent's code is six digits whose value is 100000 plus the draw, so it lies in [100000, 999999] |
| `Auth.Merge` | src/contexts/AuthContext.tsx:91 | the object spread: each field present in the update overrides, every absent field is kept |
| `Auth.MergeIdempotent` | src/contexts/AuthContext.tsx:91 | merging the same update twice equals merging it once |
| `Auth.Login` | src/contexts/AuthContext.tsx:37-52 | succeeds iff some stored account matches both email and password; the session becomes the first match's user (no password); the store never changes; a failure changes nothing |
| `Auth.LoginAfterLogout` | src/contexts/AuthContext.tsx:37-52 | whether a login succeeds, and the state it produces, depend only on the stored accounts, not on who was logged in |
| `Auth.Signup` | src/contexts/AuthContext.tsx:54-82 | refused iff some stored account has the email, leaving everything unchanged; otherwise exactly one account is appended with an empty `pairedWith`, with a valid six-digit code iff it is a parent, and it becomes the session |
| `Auth.SignupKeepsEmailsUnique` | src/contexts/AuthContext.tsx:59-75 | if no two stored accounts share an email before a signup, none do after it |
| `Auth.Logout` | src/contexts/AuthContext.tsx:84-87 | the session is cleared and the stored accounts are untouched |
| `Auth.UpdateUser` | src/contexts/AuthContext.tsx:89-106 | no session means no change; otherwise the session user is merged, the first stored record with the session's id is merged, and every other record is unchanged, passwords included |
| `Auth.UpdateUserUnknownId` | src/contexts/AuthContext.tsx:97-103 | when no stored record has the session's id, the store is unchanged |
| `Alerts.AddAlert` | src/contexts/LocationContext.tsx:180-188 | the new unacknowledged alert with the given id and time is at index 0 and the old log follows unchanged |
| `Alerts.Acknowledge` | src/contexts/LocationContext.tsx:201-207 | same length; an alert's flag becomes set iff it was set or its id matches; no other field of any alert changes |
| `Alerts.AcknowledgeIdempotent` | src/contexts/LocationContext.tsx:201-207 | acknowledging an id twice equals acknowledging it once |
| `Alerts.AcknowledgeUnknownId` | src/contexts/LocationContext.tsx:201-207 | acknowledging an id no alert carries is a no-op |
| `Alerts.AcknowledgeAfterAdd` | src/contexts/LocationContext.tsx:180-207 | a freshly added alert is acknowledged by its own id and not by any other |
| `Zones.AddSafeZone` | src/contexts/LocationContext.tsx:168-174 | one zone with the new id is appended; the earlier zones keep their places; the id set grows by exactly that id |
| `Zones.RemoveSafeZone` | src/contexts/LocationContext.tsx:176-178 | a zone survives iff its id differs; the id set loses exactly that id; an absent id is a no-op |
| `Zones.RemoveSafeZoneConcat` | src/contexts/LocationContext.tsx:176-178 | removal distributes over concatenation, so the survivors keep their original order |
| `Zones.RemoveSafeZoneSingle` | src/contexts/LocationContext.tsx:177 | a single zone is kept exactly when its id differs from the removed one |
| `Zones.RemoveSafeZoneIdempotent` | src/contexts/LocationContext.tsx:176-178 | removing twice equals removing once |
| `Zones.AddThenRemove` | src/contexts/LocationContext.tsx:168-178 | removing a zone just added under a fresh id gives back the old list |
| `Zones.AddKeepsUniqueIds` | src/contexts/LocationContext.tsx:168-174 | adding under a fresh id keeps zone ids distinct |
| `Zones.RemoveKeepsUniqueIds` | src/contexts/LocationContext.tsx:176-178 | removing keeps zone ids distinct |
| `Zones.UniqueIdsPairwise` | src/contexts/LocationContext.tsx:168-178 | the recursive distinct-ids predicate is exactly pairwise distinctness of ids |
| `Geofence.WasInside` | src/contexts/LocationContext.tsx:121 | a missing flag reads as outside; a stored flag reads as inside exactly when it holds 'true' |
| `Geofence.Inside` | src/contexts/LocationContext.tsx:120 | a sample on the boundary or closer than the radius is inside; one farther away is outside |
| `Geofence.EntryMessage` | src/contexts/LocationContext.tsx:127 | the entry text is the user's name, then " entered ", then the zone's name |
| `Geofence.ExitMessage` | src/contexts/LocationContext.tsx:136 | the exit text is the user's name, then " left ", then the zone's name |
| `Geofence.EntryExitMessagesDiffer` | src/contexts/LocationContext.tsx:127-136 | for the same user and zone the entry and exit texts differ |
| `Geofence.Edge` | src/contexts/LocationContext.tsx:123-141 | entry iff inside and not previously inside; exit iff outside and previously inside; nothing iff the two agree |
| `Geofence.ZoneStep` | src/contexts/LocationContext.tsx:121-141 | with a missing flag read as outside: on an edge it emits one alert of that kind with the given id for the sample's user and writes the flag; its message is the entry text for an entry and the exit text for an exit; otherwise it emits nothing and the flags are unchanged; afterwards the flag equals "inside now" |
| `Geofence.ZoneStepFrame` | src/contexts/LocationContext.tsx:131-140 | a step writes no flag other than its own (zone, user) key |
| `Geofence.Evaluate` | src/contexts/LocationContext.tsx:112-142 | one pass over the zones emits at most one alert per zone |
| `Geofence.CheckZones` | src/contexts/LocationContext.tsx:112-142 | the emitted alerts, at most one per zone, go in front of the log, and the old log follows unchanged |
| `Geofence.CheckGeofencing` | src/contexts/LocationContext.tsx:109-143 | without a logged-in user nothing changes; with one, at most one alert per zone goes in front of the unchanged log, each an unacknowledged entry or exit about the sample's user carrying the logged-in user's name |
| `Geofence.EvaluateAlerts` | src/contexts/LocationContext.tsx:125-139 | every emitted alert is an unacknowledged entry or exit about the sample's user, with the user's name and the evaluation time |
| `Geofence.EvaluateFrame` | src/contexts/LocationContext.tsx:112-142 | flags of other users and of zones not in the list are left as they were |
| `Geofence.EvaluateSettlesFlags` | src/contexts/LocationContext.tsx:121-141 | with distinct zone ids, after one evaluation every zone's effective flag equals whether the sample is inside it |
| `Geofence.EvaluateEmits` | src/contexts/LocationContext.tsx:112-142 | with distinct zone ids, the kinds emitted are exactly the reference transitions: one per zone whose membership flipped, newest first |
| `Geofence.StayingInsideIsQuiet` | src/contexts/LocationContext.tsx:120-141 | a sample still inside a zone whose flag says inside changes neither the log nor the flags |
| `Geofence.ZoneTraceAlternates` | src/contexts/LocationContext.tsx:112-142 | for one zone and user, transitions alternate; they begin with an entry when the user started outside or had no flag; there is at most one per sample |
| `Geofence.FeedIsTrack` | src/contexts/LocationContext.tsx:73 | feeding samples one by one to geofencing puts exactly the tracked alerts in front of the log and ends with the tracked flags |
| `Geofence.TrackOneZone` | src/contexts/LocationContext.tsx:112-142 | for one zone and one user, the alerts a run of samples emits are the zone's alternating trace, newest first; a zone among several is covered by the next rows |
| `Geofence.TrackSettlesFlags` | src/contexts/LocationContext.tsx:112-142 | with distinct zone ids, after a run of one user's samples every listed zone's flag equals whether the last sample lies inside it; an empty run leaves it alone |
| `Geofence.TrackZoneAgrees` | src/contexts/LocationContext.tsx:112-142 | a zone evaluated among any number of others ends every run with the same flag as when it is evaluated alone, so it reports the same transition at each sample |
| `Geofence.TransitionsAreSteps` | src/contexts/LocationContext.tsx:120-141 | when the flags record where the previous sample lay, a sample's transitions are each zone's edge from the previous position to the current one |
| `Geofence.TrackEmitsRun` | src/contexts/LocationContext.tsx:112-142 | with distinct zone ids and one user, a run over any number of zones emits exactly the flag-free reference: the first sample is read against the stored flags, and at every later sample each zone reports the next step of its own alternating trace |
| `Geofence.HomeScenario` | src/contexts/LocationContext.tsx:120-141 | inside, outside, inside with no prior flag emits entry, exit, entry |
| `LocationContext.PushHistory` | src/contexts/LocationContext.tsx:70 | the history holds 1 to 100 entries with the new sample last; below 100 entries the sample is simply appended |
| `LocationContext.PushIsWindow` | src/contexts/LocationContext.tsx:70 | one push equals the last 100 entries of the extended history |
| `LocationContext.PushAllIsWindow` | src/contexts/LocationContext.tsx:70 | from any window, a run of pushes leaves the last 100 of all samples, in arrival order |
| `LocationContext.HistoryKeepsNewest` | src/contexts/LocationContext.tsx:70 | from an empty history, a run of pushes keeps exactly the newest 100 samples |
| `LocationContext.StartSharing` | src/contexts/LocationContext.tsx:160-162 | sharing is on and nothing else changes |
| `LocationContext.StopSharing` | src/contexts/LocationContext.tsx:164-166 | sharing is off and nothing else changes |
| `LocationContext.Jitter` | src/contexts/LocationContext.tsx:63-64 | a draw in [0, 1) moves a coordinate by at least -0.0005 and less than 0.0005 degrees |
| `LocationContext.Tick` | src/contexts/LocationContext.tsx:57-78 | with sharing off or no user nothing happens; otherwise the user's sample is stored with time `now`, other users' samples are kept, the history gets the sample pushed, geofencing runs on it, and zones and the switch are kept |
| `LocationContext.TickStepIsSmall` | src/contexts/LocationContext.tsx:61-64 | a tick moves the user under 0.0005 degrees per axis from the last sample, or from the default point when there is none |
| `LocationContext.StoppedTickIsNoop` | src/contexts/LocationContext.tsx:58 | after stopSharing a tick changes nothing |
| `LocationContext.SosMessage` | src/contexts/LocationContext.tsx:194 | the SOS text is U+1F6A8, " EMERGENCY: ", the user's name, then " triggered SOS alert!" |
| `LocationContext.TriggerSOS` | src/contexts/LocationContext.tsx:190-199 | with a user, one unacknowledged `sos` alert with the user's id, name and the SOS text goes in front of the unchanged log; without one, nothing |
| `LocationContext.TriggerSOSCounts` | src/contexts/LocationContext.tsx:190-199 | an SOS adds exactly one `sos` alert when a user is present and none otherwise, and no alert of any other kind |
| `AlertsPanel.AlertVariant` | src/components/AlertsPanel.tsx:28-39 | destructive iff `sos`, default iff `zone_exit`, secondary iff `zone_entry`, outline otherwise |
| `AlertsPanel.VariantOfKinds` | src/components/AlertsPanel.tsx:28-39 | over the four alert types the variants are destructive, default, secondary, and outline for low battery |
| `AlertsPanel.ReplaceFirst` | src/components/AlertsPanel.tsx:121 | one-character `replace` keeps the length; its content is given by the next rows |
| `AlertsPanel.ReplaceFirstAbsent` | src/components/AlertsPanel.tsx:121 | without an occurrence nothing is replaced, so a type with no underscore is only upper-cased |
| `AlertsPanel.ReplaceFirstAt` | src/components/AlertsPanel.tsx:121 | one-character `replace` keeps every other character and turns an occurrence into the replacement iff it is the first one |
| `AlertsPanel.ReplaceFirstSplit` | src/components/AlertsPanel.tsx:121 | the prefix before the first occurrence is untouched, the occurrence is replaced, and the rest is kept |
| `AlertsPanel.ToUpper` | src/components/AlertsPanel.tsx:121 | each character is upper-cased in place; the length is kept |
| `AlertsPanel.ToUpperIdempotent` | src/components/AlertsPanel.tsx:121 | no ASCII lower-case letter survives, and upper-casing twice equals once |
| `AlertsPanel.Label` | src/components/AlertsPanel.tsx:121 | the badge text has the type's length; its content is given by the rows for the split and underscore lemmas and the four types |
| `AlertsPanel.LabelSplit` | src/components/AlertsPanel.tsx:121 | a type `p_q` with no underscore in `p` is labelled as upper-case `p`, a space, then upper-case `q` |
| `AlertsPanel.LabelUnderscores` | src/components/AlertsPanel.tsx:121 | a label still contains an underscore iff the type contains two or more |
| `AlertsPanel.LabelSos` | src/components/AlertsPanel.tsx:121 | `sos` is shown as `SOS` |
| `AlertsPanel.LabelZoneExit` | src/components/AlertsPanel.tsx:121 | `zone_exit` is shown as `ZONE EXIT` |
| `AlertsPanel.LabelZoneEntry` | src/components/AlertsPanel.tsx:121 | `zone_entry` is shown as `ZONE ENTRY` |
| `AlertsPanel.LabelLowBattery` | src/components/AlertsPanel.tsx:121 | `low_battery` is shown as `LOW BATTERY` |
| `AlertsPanel.UnacknowledgedCount` | src/components/AlertsPanel.tsx:41 | "New Alerts" is at most the total, and zero iff every alert is acknowledged |
| `AlertsPanel.AcknowledgedCount` | src/components/AlertsPanel.tsx:42 | "Resolved" is at most the total, and zero iff no alert is acknowledged |
| `AlertsPanel.CountsPartition` | src/components/AlertsPanel.tsx:41-67 | "New Alerts" plus "Resolved" equals "Total Alerts" |
| `AlertsPanel.AddAlertCounts` | src/components/AlertsPanel.tsx:41-42 | a new alert raises "New Alerts" by one and leaves "Resolved" alone |
| `AlertsPanel.AcknowledgeCounts` | src/components/AlertsPanel.tsx:41-42 | acknowledging an id moves exactly the pending alerts with that id from "New Alerts" to "Resolved" |
| `AlertsPanel.Offered` | src/components/AlertsPanel.tsx:124-140 | as many Acknowledge buttons are shown as there are unacknowledged alerts |
| `AlertsPanel.OfferedMembers` | src/components/AlertsPanel.tsx:124-140 | an id has a button iff some unacknowledged alert carries it |
| `AlertsPanel.AcknowledgeWithdrawsOffer` | src/components/AlertsPanel.tsx:124-140 | after acknowledging an id no button offers it, and every other id keeps or lacks its button as before |
| `Pairing.DigitsOnly` | src/components/ChildDashboard.tsx:163 | the filtered code contains only digits and is no longer than the input |
| `Pairing.DigitsOnlyConcat` | src/components/ChildDashboard.tsx:163 | the filter distributes over concatenation |
| `Pairing.DigitsOnlyChar` | src/components/ChildDashboard.tsx:163 | a single character is kept iff it is a digit; with the previous row, the result is the input's digits in order |
| `Pairing.DigitsOnlyFixed` | src/components/ChildDashboard.tsx:163 | the filter leaves a string unchanged iff it is all digits |
| `Pairing.DigitsOnlyIdempotent` | src/components/ChildDashboard.tsx:163 | filtering twice equals filtering once |
| `Pairing.AddOnce` | src/components/ChildDashboard.tsx:38-40 | the list afterwards holds exactly the old members and the new id, with the old list as its prefix and at most one element more |
| `Pairing.AddOnceProperties` | src/components/ChildDashboard.tsx:38-40 | adding once keeps a duplicate-free list duplicate-free, and adding twice equals adding once |
| `Pairing.ParentIndex` | src/components/ChildDashboard.tsx:31 | the parent is the first stored account whose pairing code equals the entered code; none iff no account has it |
| `Pairing.LinkParent` | src/components/ChildDashboard.tsx:35-40 | only the parent's record changes, and only its `pairedWith`, which afterwards holds exactly its old ids plus the child's, with no duplicate added |
| `Pairing.ChildUpdate` | src/components/ChildDashboard.tsx:43-47 | no `updateUser` call iff the child's list already holds the parent; otherwise the new list is the old one with the parent's id appended once, and it gains no duplicate |
| `Pairing.ApplyChildUpdate` | src/components/ChildDashboard.tsx:43-47 | the session keeps its id and afterwards lists the parent besides its old ids, adding no duplicate; the number of stored accounts is kept and only a record carrying the session's id can change |
| `Pairing.HandlePairingAsWritten` | src/components/ChildDashboard.tsx:25-57 | a code not of length six does nothing; an unknown code reports an invalid code and changes nothing; a known code pairs, reports the parent's name, keeps the number of accounts, makes the parent's stored record list the child, leaves every other stored record as it was (the child's included), and keeps the session's id while it lists the parent |
| `Pairing.HandlePairing` | src/components/ChildDashboard.tsx:25-57 | a code not of length six does nothing; an unknown code reports an invalid code and changes nothing; a known code pairs and reports the parent's name; the number of accounts and the session's id are kept; the session lists the parent; the parent's stored record lists the child unless it carries the child's own id. Unlike the as-written version, the child's stored record may change: it receives the parent (see `Pairing.PairingLinksBoth`) |
| `Pairing.PairingKeepsListsDuplicateFree` | src/components/ChildDashboard.tsx:38-47 | in both write orders, a successful pairing adds no duplicate id to the session's list or to the parent's stored list |
| `Pairing.SessionListsParent` | src/components/ChildDashboard.tsx:43-47 | after a successful pairing the session's `pairedWith` holds the parent's id |
| `Pairing.PairingLinksBoth` | src/components/ChildDashboard.tsx:35-49 | after a successful pairing the parent's stored record lists the child and the child's stored record lists the parent; every other record is unchanged |
| `Pairing.PairingIdempotent` | src/components/ChildDashboard.tsx:35-47 | pairing again with the same code changes nothing |
| `Pairing.PairingIdempotentAsWritten` | src/components/ChildDashboard.tsx:28-49 | as written too, pairing again with the same code changes nothing |
| `Pairing.AsWrittenDropsChildRecord` | src/components/ChildDashboard.tsx:28-49 | as written, the child's stored record comes out of a successful pairing unchanged, while the session lists the parent |
| `Pairing.PairingLostOnRelogin` | src/components/ChildDashboard.tsx:28-49 | as written, a child that pairs, logs out and logs back in has lost the parent link |
| `Pairing.PairingKeptOnRelogin` | src/components/ChildDashboard.tsx:28-49 | with the user list written before `updateUser`, the same sequence keeps the link |

## Left out

- The haversine `calculateDistance` (src/contexts/LocationContext.tsx:145-158) is not modelled. It is floating-point trigonometry. The model takes the distance as a function parameter and keeps only the `distance <= radius` comparison.
- Timers and effect scheduling (`setInterval`, `clearInterval`, React effect dependencies) are not modelled. One timer firing is the function `LocationContext.Tick`.
- Stale closures are not modelled. In the app, a tick and `checkGeofencing` read the zone list and locations captured when the effect last ran. The model reads the current ones.
- The parent-side effect that simulates the paired children's locations every five seconds (src/contexts/LocationContext.tsx:80-107) is not modelled. It only writes random samples into the locations map and runs no geofencing.
- `localStorage` and JSON are not modelled. They become in-memory values:
  - the stored user list and the `kidsafe_user` session key form one `AuthState`;
  - the `zone_<zoneId>_<userId>` strings form a map keyed by the pair (zone id, user id).
  - Two different pairs could produce the same string key when ids contain `_`. That collision is not modelled, because the ids are base-36 strings without `_`.
- A missing `kidsafe_users` key is not modelled separately. It behaves as the empty list. In `handlePairing`, a missing key shows no message, while the model reports an invalid code; the state is unchanged either way.
- Randomness and the clock are parameters. `Math.random()` ids, the pairing-code draw and `Date.now()` are passed in. Fresh alert ids are not required, because only acknowledgement compares ids, and it acknowledges every alert with the id.
- Geofence.Evaluate: all alerts of one geofencing pass get one timestamp `now`. In the app each `addAlert` calls `Date.now()` separately.
- The location history is kept only for the logged-in user's own samples, one list, as the code does. It is not kept per user.
- Pairing.HandlePairing and Pairing.HandlePairingAsWritten require a logged-in user. The child dashboard is only rendered for one (src/app/page.tsx:14-34), so the `user?.id` undefined case cannot arise.
- Pairing.PairingLinksBoth assumes two things. First, the parent's record is not the child's first record. Second, the child's stored record agrees with the session, as it does right after login or signup.
- Pairing.PairingIdempotent assumes the parent's record does not carry the child's own id. A parent pairing with its own code could otherwise lose its own list.
- Pairing.PairingIdempotentAsWritten makes the same assumption, for the same reason.
- Pairing.HandlePairing states the parent's stored link only when the parent's record does not carry the child's own id. Otherwise the later `updateUser` merges the child's update into that same record and replaces its list.
- Pairing.PairingKeepsListsDuplicateFree states the corrected version's parent list under the same proviso, for the same reason.
- The browser `alert(...)` pop-ups and clearing the input field are not modelled. The outcome value stands in for the message.
- The `maxLength={6}` attribute of the code field is not modelled. It is a browser limit. The handler checks the length itself.
- AlertsPanel.ToUpper: only ASCII `a`-`z` are upper-cased. The alert types contain no other letters.
- LocationContext.SosMessage: the source text at src/contexts/LocationContext.tsx:194 begins with the four characters "ðŸš¨". Those are the UTF-8 bytes of U+1F6A8 (police car light) decoded as Windows-1252 and encoded again, so the emoji is encoded twice. The identifiers at lines 147-150 are garbled the same way. The model takes the intended single character U+1F6A8.
- LocationContext.Jitter and LocationContext.TickStepIsSmall: coordinates, jitter and zone radii are exact real numbers, not IEEE doubles. The two members state strict bounds on `lat + (Math.random() - 0.5) * 0.001` (src/contexts/LocationContext.tsx:63-64). Rounding the double sum can miss such a bound by one unit in the last place. The zone radius comes from `parseInt(radius)` in the safe-zone form (src/components/SafeZoneManager.tsx:28), which gives NaN for an empty field. A NaN radius makes every `distance <= radius` false, so the zone is never entered. The model covers that only through the free `dist` parameter; the radius is always a real number.
- BandContext, the map view, the safe-zone form, the login form and other UI components are not modelled. They are display or random simulation.

## Findings

| source | as written | input that shows it | evidently intended | confidence | as-written member | corrected member |
|---|---|---|---|---|---|---|
| src/components/ChildDashboard.tsx:28-49 | `handlePairing` reads the stored user list once and adds the child to the parent's record in that copy. It then calls `updateUser`, which writes the child's new `pairedWith` into the stored list (src/contexts/AuthContext.tsx:101-102). Last, it writes its own copy back, which still holds the child's old record. | A parent `p1` with code 123456 and a logged-in child `c1` whose `pairedWith` is empty. The child pairs with 123456, logs out and logs back in: the session's `pairedWith` is empty again. | Both stored records keep the new link: write the parent's change first, then call `updateUser` | high (not executed) | `Pairing.HandlePairingAsWritten`, `Pairing.PairingLostOnRelogin` | `Pairing.HandlePairing`, `Pairing.PairingKeptOnRelogin` |
