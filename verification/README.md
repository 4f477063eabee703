# A model of the stateful core of bancho.py-ex

bancho.py-ex is a game server for osu!. This project models the parts of it that carry real state,
arithmetic or encoding, and proves what they keep:

* **Multiplayer, chat and spectating** (`Entities`, `MatchTypes`, `Mods`, `Scrim`, `MatchHandlers`,
  `Sessions`, `Server`, `Arrivals`, `Pictures`, `Outcomes`, `Views`, `Effects`, `Runs`, `Guards`, `Polling`). Players, the 64 registry cells, the 16 slots of each match,
  channels and the spectator graph are objects that point at each other. `Sessions.Valid()` is the one
  invariant that ties them together. Every packet handler and command keeps it, or states exactly when it
  does; and every run of logins, requests, silences and late effects keeps it, once the few requests that
  can break it are left aside (`Runs.Serve`). Every event of a run does exactly what it is for: `Outcomes.EventDone` relates the
  server before and after it, and `Effects` says what that comes to. In a valid state the assertions that the packet handlers and the record
  writer make (`slot is not None`, a host that is found, `s.player is not None`) hold; that of the coroutine that waits for scores need not.
* **The score ledger** (`Scores`, `Weighted`, `Performance`, `Ratings`). Statistics are kept by deltas, and equal what
  a computation from scratch over the scores table gives; pp and accuracy are geometrically weighted, stored, and stay
  what a computation from scratch would give.
* **The wire codec** (`Wire`, `Reader`, `MatchRecord`, `Framing`, `Broadcast`).
* **Beatmap set updates** (`BeatmapSync`) and **rate limiting** (`RateLimiter`).

`dafny verify dfyconfig.toml` checks everything.

## How it is written

Where the source updates objects in place, there is a class with the same fields, and its methods are
proved against functions or state their new state outright. In `Sessions`, `Valid()` is a conjunction of
eight predicates (`Online`, `Chats`, `Spectators`, `Seats`, `Ledgers`, `Registry`, `Hosts`, `Rooms`). A core
operation is proved against those it changes; a method named `...OnServer` adds those that it does not
touch; the handler in `Server` works on `Valid()`. Three ghost books, `allChannels`, `allMatches` and
`allSlots`, hold every object created so far, so the invariant also speaks about closed matches and rooms.
`everyone` holds the session objects of a run, online or not. `Slot.home`, `Player.seat`, `Player.booth`
and `Match.hostPlayer` are ghost pointers that name what a search would find, and `byId` and `byName` do so for
lookups. The ghost set `exact` has those players whose spectator channel is registered exactly when they are
watched, with them and their spectators as its members; `ever` has the ids under which somebody has been online. While somebody
acts who is not online, `strays` holds them, and what the invariant says of those online is said of them as well.

A `Picture` is the server's state as a value: who is online, which match is in which cell, where everybody plays, whom they watch,
whether they are in the lobby, who is in the public channels, who runs each match, and how each match and slot stands. `Outcomes` describes each request
and event as a relation between two pictures, in its own words, and names no method. `Views` and `Arrivals` prove for each operation on the
objects that the picture changes in that way, `Runs.Step` for each event, and `Runs.Serve` returns the pictures of a whole run as a ghost result. Members of
the channels of matches and booths are not in the picture; what happens to them is in the contracts of `Sessions` and `Server`.

A step of a run is what happens between two awaits; only a login, which also waits, is one step throughout. Three other
things in the modelled code wait in the middle, and come in two steps each: MatchChangeSettings when it looks for the server's own map, `!mp pick` when it looks for the
pool's, and MatchComplete, which leaves the award of the point to a coroutine that waits for the scores. The second step is
an event of its own that may come at any later time (`Resumed`, `Picked`, `Scored` in `Runs`), so the
interleavings with other requests are among the runs. What the waiting for scores does is in `Polling`.

## What turned out to have conditions

* **Leaving a match whose seed is negative.** A client's seed is read with a sign (app/packets.py:529), stored as it is
  (app/api/domains/cho.py:1440), and written without one (app/packets.py:674), which raises. `leave_match` tells those who
  stay before it clears `player.match` (app/objects/player.py:699-701), so the player keeps a match in which
  `get_slot` does not find them, and a logout ends before the player is removed. `Leave`, `Logout`, `MakeWay` and `Login` say
  exactly when this happens: if the seed is negative and somebody else sits in the match. `Guards.NegativeSeed` is such
  a run from an empty server. `Broadcast.CanBeSent` proves that the seed is the only reason for which a registered match cannot be
  sent, and `SeedSurvives` which records from clients have such a seed. `Runs` drops creations with a negative seed.
  In the other handlers the state is complete before it is sent, but for the award after MatchComplete, which then never comes.
* **What a session asks for after its own logout.** All packets of a body are handled for the session that its token stood for
  (app/api/domains/cho.py:230-231), LOGOUT among them. Afterwards, or when a login has replaced it meanwhile, the session is not online, and nothing asks again. The state is valid
  after its request if and only if that is not a MatchCreate that passes the checks and finds a cell, a MatchJoin that succeeds,
  a StartSpectating whose target is online, or a ChannelJoin that succeeds (`Runs.Handle`, with `Breaks`; for each handler `Create`, `Join`,
  `StartSpectating`, `ChannelJoin`). `Guards.LogoutThenCreate` is such a run: it leaves a match that nobody is in and whose
  host is not online. `Runs` drops exactly those requests.
* **Reopening a locked slot** (app/api/domains/cho.py:1556-1557, app/commands.py:1813-1814) leaves a player
  who sits in it in an open slot. `Lock` and `MpUnlock` say when, in both directions. In `Runs` such a command is
  dropped, like all that are not `Proper`.
* **MatchCreate by a player who is in a match** registers a match without players that nobody can close.
  `Create` proves that the state is valid afterwards if and only if the creator was online and in no match (or
  nothing was created). In `Runs` such a request is dropped.
* **Scores that arrive late.** Nothing looks whether the scrim has ended meanwhile, or whether the team type has changed so that the
  winner is no side any more; in that case the point is counted before an assertion fails (app/objects/match.py:438-491), and a
  side may sit on its target for ever. `UpdateMatchpoints` keeps the ledger valid if and only if the scores are `Harmless`: there
  are none; or there is still a scrim, and they tie, or their winner fits or is not on the target yet; or they win a best of
  one that is over. In `Runs` others are dropped.
* **Waiting for scores** is waiting for slots, whoever is in them by then (app/objects/match.py:362-397). `AwaitSubmissions` comes to its
  end if and only if no slot is found empty at a look before its score; otherwise the assertion fails and nobody gets the point
  (`LeftTooEarly`). A player who moves into an awaited slot is counted twice (`CountedTwice`). As long as everybody
  stays in their slot, each player is found or missing and not both (`FoundOrMissing`).
* **Settings that go on after a wait** are for the match that the sender is in by then, and nobody asks again who its host is
  (app/api/domains/cho.py:1642-1701). `ResumeSettings` says what they change there and exactly when nothing; `GoOn` that
  it is that match alone. The invariant survives. A mode that is no mode raises before the team type changes, and a team type that is none
  makes everybody red first.
* **A spectator channel** has the watched player in it only if they may read it: a restricted host is
  missing from their own, and somebody who watches themselves opens a channel that nobody watches.
  `AddToBooth` says when a booth stays exact, in both directions. A new session has an exact booth if and only if nobody still
  watches an earlier session under its id (`Login`). Over whole runs, everybody online who has logged in once has an exact booth,
  unless they have watched themselves or been watched while restricted (`ServeFromStart`).
* **Switching freemods on** keeps what a player plays with if and only if their slot has nothing beyond the match's
  mods: always when freemods was off, and never for a player with own mods when it was on, which `!mp freemods on` does
  not ask. **Switching it off** keeps what the host plays with if and only if the match mods beyond the speed-changing ones are
  covered by the host's. On and then off restores the match mods (`FreemodsOn`, `FreemodsOff`, `OnThenOff`).
* **A rematch** takes a play back exactly, except after a tie, which it leaves, and after a play that ended the
  scrim, which starts the scrim anew (`RematchUndoesPlay`). The branch of `!mp scrim` that cancels one cannot be
  reached, as `best_of // 2 + 1` is never 0.
* **Unsigned fields of the match record** come back with a sign; on fields below half of their range reading gives
  what was written (`SmallFieldsComeBack`).
* **The refill of the rate limiter** is truncated while the clock is always reset, so an API request is refused
  if and only if the bucket is empty and less than a thirtieth of a second has passed (`RefusedWhen`), and
  requests that never pause that long are refused for ever (`NeverServed`).

## Model

| member | source | states |
|---|---|---|
| `Runs.ServeFromStart` | app/api/domains/cho.py:185-237 | from the initial state, over every run, the global invariant holds, every event has its whole effect on what can be seen of the server, from nobody online, 64 free cells and no matches on, and everybody online who has logged in once has an exact booth unless they watched themselves or were watched while restricted |
| `Runs.Serve` | app/api/domains/cho.py:185-237 | the same from any valid state with sendable matches, for ids that are new; and booths that were exact stay so; the pictures before and after each event are returned |
| `Runs.Step` | app/api/domains/cho.py:185-237 | one event keeps the global invariant and does exactly what it is for: who is online, in which match, slot and public channel, whom they watch, who is host and referee, and how every match and slot stands; whoever comes online has an exact booth if the id is new; no booth but those that `Spoils` names stops being exact |
| `Outcomes.RunBrings` | app/api/domains/cho.py:185-237 | over every run, whoever is online was so at the start or has been admitted by a login of their own, and every match was there or has been created by somebody online, in their own name, in the first free cell |
| `Effects.LogInDoes` | app/api/domains/cho.py:711-1034 | a session comes online exactly if it is admitted and nobody is online under its id, or somebody stale, who is gone then |
| `Effects.QuitDoes` | app/objects/player.py:391-422 | whoever logs out is in no match and no channel and watches nobody; everybody else stays where they are |
| `Effects.EnterDoes` | app/api/domains/cho.py:1456-1487 | with the password, an open slot and no other match, the player gets into the match and an open slot; without, nothing happens |
| `Effects.SpectateDoes` | app/api/domains/cho.py:1064-1097 | afterwards the player watches the one with the id, and nothing else has changed |
| `Effects.PlayDoes` | app/commands.py:1588-1599 | only the host starts the play, with everybody who has the map; only those who may use commands abort it, and nobody plays then |
| `Effects.FreemodsDo` | app/commands.py:1658-1691 | double time, half time and nightcore stay with the match, the rest goes to the players; or what the host has, to the match |
| `Effects.LocksDo` | app/commands.py:1798-1817 | exactly the open slots are locked, or the locked ones opened |
| `Effects.ScrimDoes` | app/commands.py:1901-1951 | a scrim starts for odd numbers below 16 if there is none, to the majority of points, and stops with empty books |
| `Effects.SilenceDoes` | app/objects/player.py:542-568 | silencing takes exactly the silenced player out of their match |
| `Effects.ResumedDoes` | app/api/domains/cho.py:1642-1701 | settings that go on set the server's map if there is one and the client's otherwise, and the team type unless there is a scrim |
| `Effects.PickedDoes` | app/commands.py:2159-2177 | a pick sets map and mods, and freemods off |
| `Effects.ScoredDoes` | app/objects/match.py:430-547 | timely scores settle the books as `Scrim.Settled` says, and change nothing else |
| `Runs.Handle` | app/api/domains/cho.py:220-232 | after a request of any session, online or not, the state is valid if and only if it is not one that `Breaks`, and all matches can be sent if and only if it created none with a negative seed; if both hold, the request has its whole effect; only creating makes matches and slots, only creating and spectating make channels; nobody comes online |
| `Runs.Check` | app/api/domains/cho.py:220-232 | which requests break the invariant can be told before they are handled |
| `Runs.Receive` | app/api/domains/cho.py:220-232 | with those left aside every request of any session keeps the invariant and has its whole effect |
| `Runs.HandleInPlace` | app/api/domains/cho.py:220-232 | the same for requests that create nothing; a restricted player's other requests than logging out and channels change nothing; no booth of others is spoilt |
| `Runs.Room` | app/commands.py:1456-1482 | what each request of a player in a match does, in full; a command of somebody who is neither host, referee nor tournament manager does nothing |
| `Runs.ActInRoom` | app/api/domains/cho.py:1525-1815 | for every command, how the match and each of its slots stand afterwards, and that nothing else has changed |
| `Runs.Cell` | app/api/domains/cho.py:1458-1465 | an id from the client finds the match in that cell, counting from the end for negative ids, and nothing outside the registry; whatever is found is registered |
| `Runs.EnterById` | app/api/domains/cho.py:1456-1487 | MatchJoin by any id, password and session: it is in that match afterwards, in the first open slot, exactly if the match exists and they may, and otherwise where it was; the state is valid if and only if it is online or was not let in |
| `Runs.MayCommand` | app/commands.py:1456-1482 | the commands are for host, referees and tournament managers, in both directions; the host lookup succeeds |
| `Runs.Hush` | app/objects/player.py:542-568 | silencing an online player takes them out of their match, whose slot, host and referees are as after leaving, and keeps the invariant |
| `Runs.GoOn` | app/api/domains/cho.py:1642-1701 | settings that go on after the wait change the match that the sender is in by then, host or not, as described, and nothing else |
| `Runs.Finally` | app/commands.py:2155-2177 | a late pick for the match in a cell, or late scores that are harmless, keep the invariant and change that match as described |
| `Server.AfterWait` | app/api/domains/cho.py:1642-1701 | late effects on any match, whoever is in it, keep the global invariant, and what they make of match and slots is stated |
| `Guards.NegativeSeed` | app/objects/player.py:696-701 | a run from an empty server into an invalid state: two players in a match with the seed -1, one of whom leaves |
| `Guards.LogoutThenCreate` | app/api/domains/cho.py:230-231 | another one: a session logs out and then creates a match, which is registered without players and without a host who is online |
| `Sessions.Sessions.constructor` | app/objects/collections.py:94-99 | the initial state, with an empty registry of 64 cells, satisfies the invariant |
| `Server.OneSeat` | app/objects/player.py:591-701 | in a valid state a player's match is m if and only if a slot of m holds the player, and no two slots anywhere hold the same player |
| `Server.SeatIsFound` | app/objects/player.py:651-653 | in a valid state get_slot finds a slot for whoever is in a match, so the handlers' assertions hold |
| `Server.HostIsSeated` | app/api/domains/cho.py:1610-1612 | the host of a registered match sits in it, so the assertion on the host's slot holds |
| `Server.RegisteredWhenOccupied` | app/objects/player.py:666-701 | a registry cell holds a match if and only if it has an occupied slot; the cell's index is its id; host and referees sit in it |
| `Sessions.Sessions.JoinMatch` | app/objects/player.py:591-643 | succeeds if and only if the player is free, the host is online, the player has the password or is staff, finds an open slot (or is the host) and may read the chat; states seat, team, status and chats after success, and that refusal changes nothing |
| `Sessions.Sessions.FindSeat` | app/objects/player.py:604-620 | the host of a new match gets the first slot, others the first open one; that slot is empty |
| `Sessions.Sessions.Enter` | app/objects/player.py:622-643 | the player goes from the lobby's channel to the match's and into the slot; if the chat refuses them nothing changes |
| `Sessions.Sessions.LeaveTheMatch` | app/objects/player.py:645-701 | the slot keeps a lock and is open otherwise; the last player frees the cell; the first occupied slot inherits a leaving host's role; referees lose theirs; it comes to its end if and only if nobody else stays or the seed is not negative, and otherwise the player still points at the match |
| `Sessions.Sessions.ReleaseMatch` | app/objects/player.py:666-701 | the part after slot and chat, with the exception of telling the others |
| `Sessions.Sessions.CloseMatch` | app/objects/player.py:666-680 | an empty match leaves the registry, and its chat is gone from the registered channels |
| `Sessions.Sessions.PassHost` | app/objects/player.py:685-692 | the new host is the player in the first occupied slot |
| `Sessions.Sessions.OpenMatch` | app/api/domains/cho.py:1416-1446 | the new match goes into the first free cell with a registered chat of its own, on the client's terms, seed included |
| `Sessions.Sessions.GetFreeCell` | app/objects/collections.py:107-113 | the first free cell, or none exactly if all are taken |
| `Sessions.Sessions.RemoveMatch` | app/objects/collections.py:115-123 | exactly the cell of the match becomes free |
| `Sessions.Sessions.GetByName` | app/objects/collections.py:50-56 | finds a channel of the name exactly if one is registered |
| `Sessions.Sessions.GetById` | app/objects/collections.py:172-194 | finds a player of the id exactly if one is online |
| `Sessions.Sessions.GetHost` | app/objects/match.py:204-210 | the host property finds whoever is online under the host's id, and raises exactly if nobody is |
| `Sessions.Sessions.HostsAreFound` | app/objects/match.py:204-210 | for a registered match in a valid state it does not raise |
| `Sessions.Sessions.OfflineIsIdle` | app/objects/player.py:391-411 | somebody who is not online is in no match and no channel and watches nobody |
| `Sessions.Sessions.JoinChannel` | app/objects/player.py:703-739 | membership is entered on both sides or on neither, according to membership, privileges and the lobby rule |
| `Sessions.Sessions.LeaveChannel` | app/objects/player.py:741-772 | membership is removed on both sides, and an instance channel that gets empty is taken from the registry |
| `Sessions.Sessions.AddSpectator` | app/objects/player.py:774-812 | opens the booth if need be with the host in it, lets the spectator in and points both ways; states every list afterwards |
| `Sessions.Sessions.RemoveSpectator` | app/objects/player.py:814-842 | the channel assertion holds; the spectator leaves, and the host as well when nobody watches any more; an empty booth is taken down |
| `Sessions.Sessions.AddSpectatorBesides` | app/objects/player.py:774-812 | the booths of other players stay exact |
| `Sessions.Sessions.AddSpectatorTightly` | app/objects/player.py:774-812 | an exact booth stays exact if and only if it was open or the host is neither restricted nor the spectator |
| `Sessions.Sessions.RemoveSpectatorBesides` | app/objects/player.py:814-842 | the booths of other players stay exact |
| `Sessions.Sessions.BoothOf` | app/objects/player.py:819-820 | a spectator's booth is the one registered channel of the host, which is what remove_spectator asserts |
| `Sessions.Sessions.OtherExact` | app/objects/player.py:774-842 | a watched player shares the spectator channel with nobody whose booth counts as exact |
| `Sessions.Sessions.TightIsExact` | app/objects/player.py:774-842 | given the invariant, a booth is exact if and only if its channel, when registered, has a watched host in it and exactly the spectators besides |
| `Sessions.Sessions.AppendPlayer` | app/objects/collections.py:279-286 | a session with a new id comes online; ids stay unique |
| `Sessions.Sessions.RemovePlayer` | app/objects/collections.py:288-295 | exactly that session goes offline |
| `Server.Join` | app/api/domains/cho.py:1456-1487 | join_match on a registered match, with its condition in both directions and its whole effect; the state is valid if and only if the player is online or was not let in |
| `Server.StrayIsInvalid` | app/api/domains/cho.py:230-231 | a state in which somebody who is not online is in a match or a channel or watches somebody is not valid |
| `Runs.ForceIntoRoom` | app/commands.py:1993-2004 | mp_force keeps the invariant; the target is in the first open slot afterwards exactly if an administrator asked and the target may sit there, and otherwise nothing changes |
| `Server.Create` | app/api/domains/cho.py:1381-1452 | when a match is created and with what; the state is valid afterwards if and only if nothing was created or the creator was online and in no match |
| `Server.CreateIn` | app/api/domains/cho.py:1416-1449 | what holds after creation even by a player who is in another match or not online |
| `Server.WithoutSuffix` | app/api/domains/cho.py:1429 | the private marker is cut off once, if it is there |
| `Server.Leave` | app/api/domains/cho.py:1491-1494 | MatchPart: seat, chat, registry, host and referees afterwards; the state is valid if and only if nobody else sits in the match or its seed is not negative |
| `Server.ChangeSlot` | app/api/domains/cho.py:1498-1521 | moves the player with status, team and mods if the slot is open, and otherwise changes nothing |
| `Server.TransferHost` | app/api/domains/cho.py:1930-1953 | the host passes the role to whoever sits in the slot; nobody else changes it |
| `Server.MpHost` | app/commands.py:1696-1715 | a player who sits in the match becomes host; others do not |
| `Server.MpAddRef` | app/commands.py:1749-1765 | exactly a seated player who is not the host becomes a referee |
| `Server.MpRmRef` | app/commands.py:1770-1786 | exactly the named referee loses the role; the host cannot |
| `Server.InMatch` | app/api/domains/cho.py:1525-1815 | every command inside a match keeps the global invariant, and the split of mods if there was one; what it makes of match and slots is stated |
| `Server.AddToBooth` | app/objects/player.py:774-812 | add_spectator leaves a valid state if and only if the spectator is online, and an exact booth exact under an exact condition |
| `Server.RemoveFromBooth` | app/objects/player.py:814-842 | remove_spectator keeps the invariant and every booth exact |
| `Server.WhoRemains` | app/objects/player.py:816-831 | after a spectator leaves, the booth is empty if and only if nobody watches, and otherwise holds the host and the spectators |
| `Server.ExactBooths` | app/objects/player.py:774-842 | in a valid state `#spec_h` of a host who counts as exact is registered if and only if h is watched, its members are h and the spectators, and h is online |
| `Arrivals.Attendants` | app/objects/player.py:774-842 | in a valid state whoever watches or is in a registered channel is online, and whoever is watched has been |
| `Arrivals.NewBooth` | app/objects/player.py:774-797 | the booth of a session about to log in is exact if and only if nobody watches an earlier session under its id |
| `Server.StartSpectating` | app/api/domains/cho.py:1064-1097 | afterwards the player watches the target, or nobody when the target is the player; the state is valid if and only if the player or nobody under the target's id is online; only the target's booth can lose exactness |
| `Server.StopSpectating` | app/api/domains/cho.py:1101-1109 | exactly one spectators list loses exactly the player; no booth loses exactness |
| `Server.ChannelJoin` | app/api/domains/cho.py:1914-1926 | exactly the named channel gains the player, exactly if they may join; the state is valid if and only if they are online or may not |
| `Server.ChannelPart` | app/api/domains/cho.py:2080-2099 | exactly the named channel loses the player |
| `Arrivals.Logout` | app/objects/player.py:391-422 | terminates; comes to its end, in a valid state, if and only if the player may leave their match; then the player is offline and in no slot, match, channel, spectators list or referee set, and otherwise still online in a match without a seat |
| `Arrivals.LeaveFirst` | app/objects/player.py:405-407 | each turn of the loop leaves a channel, so the list of channels shrinks |
| `Arrivals.LeaveChannels` | app/objects/player.py:405-407 | the loop ends with no channel left, and in every channel exactly the player is missing |
| `Arrivals.LeaveRoom` | app/objects/player.py:395-397 | the first step of a logout leaves the match, and comes to its end exactly if the player may leave it |
| `Arrivals.Gone` | app/objects/player.py:391-411 | whoever has no match, host and channels is referred to by no slot, spectators list, channel or registered match |
| `Arrivals.MakeWay` | app/api/domains/cho.py:711-730 | a second login under an id is refused unless the older session is stale, which is logged out; exactly when that logout raises, so does the login |
| `Arrivals.Login` | app/api/domains/cho.py:711-1034 | the new session is online in place of the old one if it is admitted, and otherwise the old one is gone all the same; its booth is exact if and only if nobody else watched a session under its id before; other booths keep their exactness |
| `MatchTypes.SlotStatus.HasPlayerIsTheMask` | app/packets.py:662-665 | the statuses with a player are exactly those that the mask 0b01111100 hits |
| `MatchTypes.StatusBits` | app/objects/match.py:36-44 | each status is a bit of its own, from 1 for an open slot to 128 |
| `MatchTypes.TeamNumbers` | app/objects/match.py:51-83 | the numbers of teams and team types |
| `Mods.Masks` | app/constants/mods.py:292 | double time, half time and nightcore are the bits 64, 256 and 512, and exactly they change the speed |
| `Mods.BitsComeBack` | app/constants/mods.py:21-24 | a number determines the mods that it stands for |
| `Mods.Shared` | app/api/domains/cho.py:1795-1806 | what is for everybody and what is for each player are the two parts of the mods |
| `Entities.Match.GetSlot` | app/objects/match.py:240-246 | finds the player's slot exactly if there is one |
| `Entities.Match.GetFree` | app/objects/match.py:256-262 | the first open slot, or none exactly if no slot is open |
| `Entities.Match.UnreadyPlayers` | app/objects/match.py:308-312 | exactly the slots in the expected status become not ready |
| `Entities.Match.ResetScrim` | app/objects/match.py:336-340 | points, winners and bans are empty |
| `Entities.Slot.CopyFrom` | app/objects/match.py:100-104 | player, status, team and mods are the other slot's |
| `Entities.Slot.Reset` | app/objects/match.py:106-112 | the slot is empty, neutral and without mods |
| `MatchHandlers.SetOwnStatus` | app/api/domains/cho.py:1525-1534 | exactly the sender's slot changes its status; slot invariants hold |
| `MatchHandlers.ChangeTeam` | app/api/domains/cho.py:2062-2076 | exactly the sender changes sides, and is on one afterwards |
| `MatchHandlers.Lock` | app/api/domains/cho.py:1538-1572 | what every slot's status becomes; open slots are empty afterwards if and only if no occupied slot was reopened |
| `MatchHandlers.MpLock` | app/commands.py:1798-1805 | exactly the open slots are locked |
| `MatchHandlers.MpUnlock` | app/commands.py:1810-1817 | exactly the locked slots are opened; open slots are empty afterwards if and only if nobody was locked in |
| `MatchHandlers.Start` | app/objects/match.py:320-334 | exactly the players with the map play, and the match is in progress |
| `MatchHandlers.MpStart` | app/commands.py:1504-1583 | without force, the match starts if and only if nobody is not ready |
| `MatchHandlers.MpAbort` | app/commands.py:1588-1599 | exactly those who play are back, and no play is in progress |
| `MatchHandlers.Complete` | app/api/domains/cho.py:1742-1779 | the play ends if and only if nobody else plays; then all who completed are back, and their slots, in slot order, are the ones that are awaited |
| `MatchHandlers.FreemodsOn` | app/api/domains/cho.py:1596-1608 | match mods are speed-changing only and the players get the rest; a player plays with the same mods as before if and only if their slot had nothing beyond the match's |
| `MatchHandlers.FreemodsOff` | app/api/domains/cho.py:1609-1621 | everybody plays with the host's and the speed-changing mods; the host plays with the same as before if and only if the host's mods cover what the match gives up |
| `MatchHandlers.MpFreemods` | app/commands.py:1658-1691 | the same by command, whatever the state before; the mods are split afterwards |
| `MatchHandlers.OnThenOff` | app/commands.py:1658-1691 | on and then off on one match restores the match mods, whatever they were |
| `MatchHandlers.ChangeMods` | app/api/domains/cho.py:1789-1815 | whose mods change to what; a split stays one |
| `MatchHandlers.MpMods` | app/commands.py:1630-1653 | as ChangeMods, but referees set the match mods without freemods |
| `MatchHandlers.MpPick` | app/commands.py:2159-2177 | the pick's map and mods, and freemods off; a split stays one |
| `MatchHandlers.MpTeams` | app/commands.py:1822-1858 | every player is on the default side, slots keep their shape, and a scrim starts from zero |
| `MatchHandlers.ChangeSettings` | app/api/domains/cho.py:1576-1642 | mods, map, readiness and teams after a settings packet of the host up to the wait, if there is one, and when there is; others change nothing |
| `MatchHandlers.ResumeSettings` | app/api/domains/cho.py:1642-1687 | the rest after the wait, on whatever match it is by then, with a mode that may raise, and exactly when that changes nothing |
| `MatchHandlers.ChangeTeamType` | app/api/domains/cho.py:1655-1687 | players get the default team of the number sent; a number that is no team type raises after that |
| `MatchHandlers.UpdateMatchpoints` | app/objects/match.py:430-547 | over the scores and the books before and after: the point and the entry among the winners are for the first side with the highest score, a draw is a play without a winner, and the point that reaches the target ends the scrim; the ledger stays valid if and only if the scores are harmless |
| `MatchHandlers.SettledAsPlayed` | app/objects/match.py:438-547 | the same of the rule for scores, in time or not, whether or not the winner is still a side |
| `MatchHandlers.MpScrim` | app/commands.py:1901-1939 | starts a best-of-n exactly for odd n below 16 when none is running |
| `MatchHandlers.MpEndScrim` | app/commands.py:1944-1951 | ends the scrim with an empty ledger |
| `MatchHandlers.MpBan` | app/commands.py:2055-2122 | exactly the named pick is banned or not any more |
| `MatchHandlers.MpRematch` | app/commands.py:1956-1988 | the host restarts a scrim or rolls back its last decisive play |
| `MatchHandlers.Run` | app/api/domains/cho.py:1525-1815 | every proper command keeps the slots' shape, open slots empty, the scrim ledger valid and a split of mods; for each, the whole new state of the match and of each slot is stated |
| `MatchHandlers.RunLate` | app/commands.py:2159-2177 | so does what follows a wait, if it is timely, with its whole effect |
| `Scrim.LeaderIndex` | app/objects/match.py:445 | the winner is the first one with the highest score |
| `Scrim.LeaderLeads` | app/objects/match.py:445 | whoever gets the point has the highest score and is the first among equals |
| `Scrim.BooksAfter` | app/commands.py:1901-1988 | a team reset empties points and winners, an end also switches the scrim off, a start that is allowed switches it on with the majority of plays as its target, and a rematch takes back exactly one point |
| `Scrim.ApplyKeepsValid` | app/objects/match.py:438-547 | points are the counted wins, nobody sits on the target, and a closed scrim has no winners, after every operation |
| `Scrim.EveryRunIsValid` | app/objects/match.py:336-340 | the same over every run of plays, starts, rematches, team resets and ends |
| `Scrim.PlayClosesAtTarget` | app/objects/match.py:438-535 | a play closes the scrim if and only if it is decisive and its winner lacked one point |
| `Scrim.SettledInTime` | app/objects/match.py:430-547 | scores keep the books of any valid ledger if and only if there are none, or the scrim is on and they tie or their winner fits or lacks more than one point, or they win a best of one that is over |
| `Scrim.TeamScrimEnds` | app/commands.py:1901-1988 | a team scrim still running has seen fewer than 2 * target - 1 decisive plays since it was begun, by a start from any closed ledger or by a rematch; for a best-of-n that is n |
| `Scrim.RematchUndoesPlay` | app/commands.py:1956-1988 | a rollback undoes a play exactly, but for ties and closing plays |
| `Polling.AwaitSubmissions` | app/objects/match.py:342-400 | comes to its end if and only if no slot is found empty before its score; then every slot is seen or given up, each team and player has the sum of what was seen of them, and the sleeps are at most 20 and one per slot given up |
| `Polling.WaitFor` | app/objects/match.py:365-397 | the inner loop is the specified wait, with its three outcomes |
| `Polling.WatchDies` | app/objects/match.py:368 | the assertion fails if and only if the slot is empty at a look up to which there was no score, within the patience |
| `Polling.WatchEnds` | app/objects/match.py:376-397 | a score that is seen was there at that look; a slot is given up when the common patience is over, with whoever is in it then |
| `Polling.FoundOrMissing` | app/objects/match.py:342-400 | as long as different players stay in their slots, each is seen or given up, and nobody is both |
| `Polling.LeftTooEarly` | app/objects/match.py:368 | an input on which the assertion fails |
| `Polling.CountedTwice` | app/objects/match.py:383-388 | an input on which one score counts twice |
| `Polling.AddAdds` | app/objects/match.py:383-388 | crediting a side adds to it alone |
| `Polling.SidesGetTheirs` | app/objects/match.py:383-388 | a team's total is the sum of the scores seen in slots of that team, a player's that of their own |
| `Scores.SubmitKeepsConsistent` | app/api/domains/osu.py:1610-1669 | if totals, histogram, ranked score and best combo equal the aggregates over the table and best rows are unique and maximal, a submission keeps that |
| `Scores.Run` | app/api/domains/osu.py:1522-1669 | over any sequence of submissions the statistics equal those computed from scratch, and the table has one row per submission |
| `Scores.CountsAreNonNegative` | app/api/domains/osu.py:1645-1662 | no grade count and no ranked score goes negative |
| `Scores.BestOfRun` | app/objects/score.py:444-474 | whoever has passed a map has exactly one best row on it, of maximal pp |
| `Scores.SuccessiveBests` | app/objects/score.py:455-468 | successive bests on a key have strictly increasing pp |
| `Scores.PrevBest` | app/objects/score.py:446-453 | finds a best row of the key exactly if there is one |
| `Scores.Demote` | app/api/domains/osu.py:1522-1534 | exactly the best rows of the key become submitted ones |
| `Scores.Submissions.FetchBest` | app/objects/score.py:446-453 | the search over the table gives the specified row |
| `Scores.Submissions.CalculateStatus` | app/objects/score.py:444-474 | status and previous best as specified |
| `Scores.Submissions.SubmitScore` | app/api/domains/osu.py:1390-1669 | the in-place submission refines the specification and keeps the books consistent; the row that is recorded, which row stops being the best, and by how much each statistic of the player rises are stated by status, mode and grade; a map that is neither ranked nor approved leaves ranked score and grades alone; nobody else's statistics change |
| `Scores.SubmitRecords` | app/api/domains/osu.py:1522-1669 | the same of the specification |
| `Scores.UpdateCredits` | app/api/domains/osu.py:1612-1669 | by how much each statistic rises: hits by mode, ranked score by the gain over the best so far on a ranked or approved map, grades by what the new best has and the old one had |
| `Scores.InsertRecords` | app/api/domains/osu.py:1522-1534 | the new row is the last one, with its status, and only a best row of the key that it beats has changed |
| `Scores.Counted` | app/api/domains/osu.py:1612-1669 | the update by deltas gives the specified statistics |
| `Weighted.HornerForm` | app/api/domains/osu.py:1691-1694 | the sum over enumerated rows equals its recursive form |
| `Weighted.Sort` | app/api/domains/osu.py:1676-1684 | ordering by pp is a descending permutation |
| `Weighted.DescIsUnique` | app/api/domains/osu.py:1676-1684 | there is only one descending order, so ties do not matter for pp |
| `Weighted.DescendingIsMaximal` | app/api/domains/osu.py:1693-1694 | no order of the same scores has a larger weighted sum |
| `Weighted.Between` | tools/recalc.py:173-176 | the weighted sum lies between the extreme scores times the sum of the weights |
| `Weighted.WeightsAddUp` | tools/recalc.py:173-176 | 20 * (1 - 0.95^n) is the sum of the first n weights |
| `Weighted.MoreScoresMorePp` | tools/recalc.py:178-181 | one more row, sorted in, does not lower the total |
| `Weighted.BetterScoreMorePp` | tools/recalc.py:178-181 | a better row in place of another, sorted again, does not lower the total |
| `Weighted.TotalIsBounded` | tools/recalc.py:178-181 | the total is below 20 * max + 416.6667 |
| `Weighted.AccuracyIsAMean` | app/api/domains/osu.py:1685-1690 | with at least one score the divisor is not zero and the accuracy lies between the extreme ones |
| `Weighted.AccuracyIsTheMean` | app/api/domains/osu.py:1685-1690 | the accuracy times the sum of the weights is the weighted sum |
| `Weighted.BonusSteps` | app/api/domains/osu.py:1695 | the bonus begins with 0.25 pp for one score and grows by 0.06% less with every further one |
| `Weighted.Round` | app/api/domains/osu.py:1696 | the result is within one half of the argument, and even when exactly between two integers |
| `Weighted.RoundIsMonotone` | app/api/domains/osu.py:1696 | rounding to the nearest even number keeps the order |
| `Performance.PpsAfterBest` | app/api/domains/osu.py:1676-1684 | which rows a new best adds to and takes from the ones the pp is summed over |
| `Performance.PpNeverFalls` | app/api/domains/osu.py:1692-1696 | no submission lowers anybody's total pp, before or after rounding |
| `Performance.PpOnlyGrows` | tools/recalc.py:178-181 | over every run the total computed from scratch only grows |
| `Ratings.StoredIsFromScratch` | app/api/domains/osu.py:1676-1696 | over every run the stored pp is what a computation from scratch gives and only grows, and the stored accuracy is the weighted mean over the scores that count, in an order that is descending in pp, and so lies between the extremes |
| `Ratings.RateIsFair` | tools/recalc.py:173-181 | the computation over the sorted rows gives the total pp of the scores that count and the weighted mean of their accuracies in an order that is descending in pp |
| `Ratings.WhoCounts` | app/api/domains/osu.py:1676-1684 | exactly the best scores on ranked and on approved maps count |
| `Ratings.MeanIsBetween` | app/api/domains/osu.py:1685-1690 | a weighted mean in any such order lies between the extremes |
| `Ratings.SameScoresCount` | app/api/domains/osu.py:1640-1684 | a submission that recomputes nothing leaves the scores that count, and their order, as they were |
| `Ratings.UnrankedRatesNobody` | app/objects/beatmap.py:394-397 | a score on a map that is neither ranked nor approved, or somebody else's, leaves the stored pp and accuracy alone |
| `Ratings.RerateIsFair` | app/api/domains/osu.py:1634-1696 | a submission that does not recompute pp and accuracy leaves them what a computation from scratch gives |
| `Ratings.PpsSorted` | app/api/domains/osu.py:1676-1684 | sorting rows by pp sorts their pp |
| `Performance.JustInserted` | app/api/domains/osu.py:1685-1690 | the row just inserted keeps the accuracy's divisor from being zero |
| `Wire.FromLEofLE` | app/packets.py:388-418 | little-endian integers come back |
| `Wire.LEofFromLE` | app/packets.py:388-418 | every byte sequence is the encoding of what it decodes to |
| `Wire.LittleEndian` | app/packets.py:388-418 | the first byte is the least significant one |
| `Wire.TwosComplement` | app/packets.py:388-418 | a signed number is congruent to the unsigned one, and in the signed range |
| `Wire.ParseUlebOfUleb` | app/packets.py:455-478 | decoding a ULEB128 number gives it back and consumes exactly its bytes |
| `Wire.UlebIsShortest` | app/packets.py:569-582 | no encoding of a number is shorter than the one written |
| `Wire.UlebIsCanonical` | app/packets.py:569-582 | an encoding is the one written if and only if it has no superfluous last zero |
| `Wire.WriteUleb` | app/packets.py:569-582 | the loop writes that encoding |
| `Wire.ParseStringOfString` | app/packets.py:455-478 | strings, the empty one included, come back whatever follows |
| `Reader.BanchoPacketReader.ReadString` | app/packets.py:455-478 | the loop with shifts decodes the specified string and moves the view past exactly its bytes |
| `Reader.BanchoPacketReader.ReadRaw` | app/packets.py:371-374 | takes exactly the rest of the current packet |
| `Reader.BanchoPacketReader.ReadMatch` | app/packets.py:499-531 | the reader's loops give the specified record and rest |
| `MatchRecord.HasPlayerIsTheMask` | app/packets.py:662-665 | the test on numbers is the mask on bytes |
| `MatchRecord.WriteMatch` | app/packets.py:639-675 | writes the specified bytes, and raises exactly for matches that are not writable |
| `MatchRecord.RoundTrip` | app/packets.py:499-531 | reading what was written, with any bytes after it, gives all fields and leaves those bytes |
| `MatchRecord.HeadLayout` | app/packets.py:639-657 | id, flag, a zero and mods in the first eight bytes; then name, password, map name, map id and md5 in this order |
| `MatchRecord.BodyLayout` | app/packets.py:659-665 | sixteen statuses, sixteen teams, and the ids |
| `MatchRecord.TailLayout` | app/packets.py:667-675 | host, mode, win condition, team type and freemods, sixteen mods exactly under freemods, and the seed |
| `MatchRecord.SmallFieldsComeBack` | app/packets.py:499-531 | every field comes back unchanged when it is below half its range; the password only if it was sent; ids exactly of slots with a player; mods only under freemods |
| `MatchRecord.SeedSurvives` | app/packets.py:529 | for any bytes that a client sends as a record, a match with their seed can be written if and only if the seed is not negative |
| `Broadcast.CanBeSent` | app/packets.py:639-675 | a registered match can be written if and only if its seed is not negative, in a valid state and while somebody leaves |
| `Broadcast.ClientsSee` | app/packets.py:639-675 | whoever reads what was written of a registered match, whatever follows it, gets how the match and each slot stands, who the host is, and exactly the ids of the players in it; numbers of four bytes may come with a sign |
| `Broadcast.SlotsCanBeSent` | app/packets.py:662-665 | in a valid state, and while somebody leaves, the writer's assertion holds for every slot |
| `Broadcast.IdsOnWire` | app/packets.py:662-665 | no player id is sent twice for a match |
| `Framing.Write` | app/packets.py:730-744 | the header holds the exact payload length; fails exactly if id or length do not fit |
| `Framing.ReadNext` | app/packets.py:337-360 | the loop finds the next handled packet or the end, and terminates |
| `Framing.HeaderOfPacket` | app/packets.py:362-367 | a header that was written is read back |
| `Framing.PacketLayout` | app/packets.py:730-744 | two bytes for the id, a zero and four for the length, least significant ones first, and the payload |
| `Framing.Damaged` | app/packets.py:337-367 | a torn header or an unknown id raises, however many packets come before it |
| `Framing.FramesAreRead` | app/packets.py:337-360 | any sequence of frames is read as its handled packets in order, the others skipped, to an empty buffer |
| `Framing.RawIsExact` | app/packets.py:371-374 | a handler that calls read_raw takes exactly the payload and leaves what follows |
| `Framing.WriteI32List` | app/packets.py:596-603 | writes count and items, and fails exactly if one does not fit |
| `Framing.I32ListRoundTrip` | app/packets.py:439-445 | a list comes back, with negative numbers read as unsigned |
| `Framing.MessageRoundTrip` | app/packets.py:482-489 | a message comes back whatever follows |
| `BeatmapSync.NewIdsAreApis` | app/objects/beatmap.py:704-762 | the ids of the set are the API's, without duplicates |
| `BeatmapSync.SyncedMaps` | app/objects/beatmap.py:566-570 | a map whose md5 differs gets the API's md5 and details and, unless frozen, its status; any other map stays as it is; counts of known maps are untouched |
| `BeatmapSync.Codes` | app/objects/beatmap.py:204-218 | 1, 2, 3 and 4 are ranked, approved, qualified and loved; -2, -1 and 0 pending, and other numbers mean that an update is available |
| `BeatmapSync.DeletedMaps` | app/objects/beatmap.py:715-735 | an md5 is deleted if and only if it is that of a dropped map, the last one in the set with its id |
| `BeatmapSync.SyncTwice` | app/objects/beatmap.py:704-762 | the same answer again changes and deletes nothing |
| `BeatmapSync.BeatmapSet.UpdateIfAvailable` | app/objects/beatmap.py:686-762 | the in-place update gives the specified maps and deletions |
| `BeatmapSync.Beatmap.ParseFromOsuApiResp` | app/objects/beatmap.py:527-584 | md5 and, unless frozen, status are taken from the answer |
| `RateLimiter.StaysInRange` | app/api/middlewares.py:58-74 | the tokens stay between 0 and 30 |
| `RateLimiter.WindowIsBounded` | app/api/middlewares.py:45-74 | between any two requests at s and t at most 30 + 30 * (t - s) API requests pass |
| `RateLimiter.RefusedWhen` | app/api/middlewares.py:58-69 | a request is refused if and only if there is no token and the refill truncates to none |
| `RateLimiter.NeverServed` | app/api/middlewares.py:60-63 | a client that never pauses for a thirtieth of a second is refused for ever once the bucket is empty |
| `RateLimiter.Burst` | app/api/middlewares.py:58-74 | of requests at one time as many pass as there are tokens, one for every thirtieth of a second of the pause and 30 at most |
| `RateLimiter.OnlyApiCounts` | app/api/middlewares.py:48-56 | requests for other hosts all pass, and the bucket is as if they had not come |
| `RateLimiter.RateLimitMiddleware.HandleRequest` | app/api/middlewares.py:48-74 | the in-place bucket makes the specified decision |

## Left out

- HTTP, SQL, Redis, Discord, metrics, files, IRC, geolocation, password checks, chat text, bot messages and all outgoing notifications: their results are parameters, or they do not touch the modelled state. The one exception is the state of a match, which cannot always be sent.
- Lookups of players by name: commands get the player that the lookup found, or none. A tournament client, the one case in which an id is online twice, is not modelled, nor are the packets TOURNAMENT_MATCH_INFO_REQUEST, TOURNAMENT_JOIN_MATCH_CHANNEL and TOURNAMENT_LEAVE_MATCH_CHANNEL (app/api/domains/cho.py:1957-2019), with which any supporter can enter a match's chat without being in the match.
- Session objects: the players of a run come from a fixed set of blank sessions, and a session that has logged out may log in again, which covers more runs than the server has.
- Privileges do not change during a session, so restricting a player while online is not modelled.
- Arrivals.Login: it is one step from the check for an older session to the entry in the list of players; channels joined by the client afterwards are requests.
- Channels named `#multi_` or `#spec_` are joined and left only through matches and spectating; a request that uses such a name directly is not modelled.
- Runs.ActInRoom: commands that reopen a locked slot with a player in it are dropped, because they break the invariant (see `Lock` and `MpUnlock`).
- Runs.Check: creation by a player who is in a match, or with a negative seed, is left aside as well, because it breaks the invariant (see `Create` and `Leave`). Creation with a mode, win condition or team type outside the enumerations raises before anything changes and is not modelled.
- Runs.Finally: scores that break the ledger are left aside (see `UpdateMatchpoints`); awards and picks for a match that has left the registry, which nobody can see, are not modelled.
- Runs.Receive: a request that a session makes after its own logout is left aside if it brings the session back in (see `Runs.Handle`).
- Polling.AwaitSubmissions: whether a score that is there is of this play is what a look shows; that the map and its length are read anew at every look is not modelled further.
- MatchHandlers.MpStart: timed starts, and the refusal of an immediate start while one is pending, are not modelled.
- MatchHandlers.ChangeSettings: name, mode, win condition and pp scoring are not kept in the model.
- Runs.GoOn: a settings packet may go on more than once, and without having begun, which covers more runs than the server has.
- Packets about loading, skipping, failing, score frames, random passwords and invitations: they change fields that no invariant is about.
- The bot and users of IRC are players like others; automatic joins send packets only.
- Scores.Run: submissions are serial, map statuses are fixed, pp is any non-negative number, and the daily challenge's override of the status is excluded, as it makes a second best row without demoting the first.
- Scores.Submissions.SubmitScore: the case in which the map's file is not available, which leaves the status unset, is excluded.
- Ratings.Rate: which row of two with equal pp comes first is up to the database; the accuracy is the weighted mean in one of the orders that are descending in pp.
- Floating point numbers are reals, and the clamps inside the pp calculator are not modelled.
- Strings on the wire are sequences of bytes; UTF-8 is not modelled.
- read_channel against write_channel, and score frames of the second scoring version, do not mirror each other and are not modelled; nor are replay frames and floats on the wire.
- BeatmapSync.BeatmapSet.UpdateIfAvailable: the answer of the API is a parameter; expiry of the cache, removal of the set when there is no answer, and saving are not modelled.
- RateLimiter.RateLimitMiddleware.HandleRequest: clocks are real numbers that do not run backwards.
