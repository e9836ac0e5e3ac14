# Verification model of NNTPSwitch

NNTPSwitch is a forking NNTP front end: every client gets its own process, the
processes share tables of client slots, users and profiles, and their commands are
passed on to backend news servers. This project models the six parts of it that hold
real algorithms, in Dafny 4.11, and proves what they keep. `dafny verify
dfyconfig.toml` checks all of it.

| part | files |
|---|---|
| wildmat matcher | `Utf8`, `Utf8Encoding`, `Wildmat`, `WildmatSemantics`, `WildmatExpression`, `WildmatForms` |
| client slots, users, profiles and the lock | `Sums`, `SessionTables`, `SessionProtocol`, `SessionInvariants`, `SessionCounts`, `SessionUsers`, `SessionLimits`, `SessionSteps`, `SessionDrift` |
| backend selection and fail-over | `Sorting`, `Balancer`, `Backends`, `Failover` |
| group lists and the active file | `Groups`, `GroupMerge`, `GroupLines`, `ActiveFile` |
| multi-line relay | `BlockRelay`, `BlockRelayExact` |
| prefix map and access tables | `PrefixMap`, `KeyedTables`, `ProfileTable`, `AccessTables`, `AccessMeaning`, `Access`, `Reload` |

The C code that updates tables or walks over buffers is modelled by methods with the
same loops and branches, on arrays, classes and their fields. Each is proved against
a function of its inputs or of the old state, and the theorems are about those
functions. The shared tables are also the state of a transition system in which one
step is what a process does between two points where another one may run.

Octets are integers, and the masks and shifts of the source are written as
remainders and divisions. Unsigned counters wrap at 2^32 where the source's do.
Automatic induction is switched off everywhere, so every induction is written out.

## The main results

- **Wildmat.** The matcher cuts its search short with ABORT. It agrees with the naive
  reading of every pattern on a text if and only if the text holds no complete UTF-8
  sequence of three or more octets (`TextDecidesExactly`); a pattern without `?` and
  `[` behind its first `*` is read right on every text (`AbortIsRightHere`). An
  expression is cut at its commas if and only if each piece closes the brackets it opens,
  escaped or not (`CutsExactly`); if its pieces are read right it gets the verdict of the
  last one that matches, although pieces that could not change it are skipped
  (`ExpressionMeansReference`). A class matches exactly the code points it names, or with
  `^` the others (`ClassAdmitsNamed`).
- **Sessions.** At the end of every run each user slot counts the clients that point
  at it and the authentications in flight to it, and no more clients are admitted to
  a user than the limit they passed, although one check is made without the lock and
  the lock is given up in the middle of an authentication (`EveryRunIsSafe`). Profile
  counts never go below zero, and a connecting client finds a user slot unless as many
  authentications are in flight as processes have no user (`NeverDropsZero`,
  `ConnectFindsUser`). The user counters of the profiles come back to 0 over every run
  within a relation of names and profiles exactly when the relation is a function
  (`CountersClearExactly`).
  A client is let in exactly if it is exempt or its user is within the limit
  (`AdmitExactly`, `MoveExactly`), a refused one keeps all it had (`RefusedKeeps`), and
  the lock can always be given back (`LockIsGivenBack`).
- **Backends.** The recursion that skips full servers ends exactly when the level has
  room, no server at all, or holds the default server too (`PickEndsExactly`). While
  nobody is full and the default server is elsewhere, k choices fall on each of n
  servers floor(k/n) or ceil(k/n) times (`ChosenEvenly`). The cursor is shared, and
  other processes move it between the attempts of a client. While these make
  a bounded number of choices, a client that asks for a server of a level with one good
  server is connected, whatever the other servers do, if and only if the level holds
  neither the default server nor another one of policy single, or the good one is asked for itself and has not policy balance (`ConnectsExactly`).
  On such a level, with n servers and at most m choices of others, it takes at most
  n + 1 + m(n - 1) attempts (`GoodServerFound`); without a bound on the others the
  client can be sent to one dead server for ever (`Starved`). Where nobody accepts,
  connecting ends exactly if the default server or one of policy single is on the level
  (`DeadLevelEndsExactly`, on a level left alone if one is single), and whatever the
  others choose exactly if the default server is, or the server asked for is single
  (`DeadLevelEndsAlways`). The start-up check lets a level pass exactly if all servers
  are single, or there are two and the second is not the first without that policy
  (`PassesExactly`).
- **Groups.** After merging listings without duplicates the table is in order and
  holds every name once, from the server of the lowest level that lists it
  (`UpdateGroups`, `LowestLevelWins`), just as its line says (`MergedExactly`); a row of the active file is
  read back exactly when its numbers fit their fields (`RowReadsBackExactly`).
- **Relay.** For given read lengths the relay stops right on every block exactly when
  no read is one that the window misjudges (`LengthsDecideExactly`); in particular when no two
  consecutive reads are shorter than five octets (`NoShortPairStopsRight`).
- **Access.** The bits of a prefix are its CIDR block exactly when it is aligned and
  no longer than /24 (`CoversBlockExactly`); loading the same configuration again
  changes nothing but access list entries (`ReloadKeepsRest`), and nothing at all exactly
  when every access list line that is read without any default profile is followed by
  another one for its range that finds a profile (`ReloadStableByFile`). What each
  statement puts into the tables is told by `AclMeans`, `AuthMeans` and `BlockMeans`.

## Where the code differs from what it says

- `uwildmat.c` speaks of characters, but a star moves on by octets, so a `?` or class
  behind it may start inside a character; together with ABORT this loses matches
  (`LongSequenceLoses` gives the pattern for every such text).
- For `match_expression` a bracket opens a class even behind a backslash, and the `]` of
  `[^]` closes it, unlike for `match_pattern`: `\[,x` does not match `x`
  (`EscapedBracketLost`; `CutExactly` says which pieces are cut right).
- `common.c` looks for the terminator across reads, but a read of fewer than five
  octets leaves the window as it was (`MisjudgedSometimes`).
- `server.c` counts the default server on its level but never chooses it; when other
  servers share that level the cursor runs off the list and stays there
  (`CursorStuck`). Servers without a groups line do share it, and the start-up check
  lets them pass (`SharingConfiguration`). On any other level without a server of policy
  single a client goes on for ever while no server accepts (`NeverGivesUp`).
- `server.c` gives up at a server of policy single even where that is the substitute of
  another, so one such server on a shared level can keep clients off the others
  (`ConnectsExactly`).
- The start-up check compares the server it has come to with the second one of its level,
  so a level whose first server is single and whose second is not is refused, however
  many servers follow (`PassesExactly`).
- A cursor read between the increment and the roll of another process leaves a client
  without a server on a level with room (`SeenBehind`).
- The comment of `auth/prefixmap.c` describes a map of 2 MB; `nntpd.h` reserves
  0x3FFFFF octets, which every prefix from /2 on stays within.
- The counters of users of the profiles drift: two clients of one user that come with
  different profiles and leave again restore the user table and not the counters
  (`PerProfileDriftsExactly`). They stay exact over runs in which a known user gets the
  profile of those who hold it (`StickyRunExact`), as `find_user_profile` would have it.
- An access list line in front of the default profile is left without a profile
  (`EarlyEntryDangles`).
- `loadactive` stops at MAX_GROUPS entries, one fewer than the updater writes.

## Model

| member | source | states |
|---|---|---|
| Utf8.Utf8Length | uwildmat.c:87-106 | the loop returns the width of the first character: the sequence length if the lead octet and all its continuation octets are there, else 1 |
| Utf8.Utf8Decode | uwildmat.c:119-142 | the loop returns that width and the code point of those octets |
| Utf8Encoding.WidthExactly | uwildmat.c:87-106 | a character is wider than one octet exactly if its lead octet is that of a sequence of that length and all continuation octets are there; a single octet stands for itself |
| Utf8Encoding.DecodeEncode | uwildmat.c:87-142 | decoding the RFC 2279 encoding of any non-zero code point, whatever follows, gives the code point and consumes exactly its octets |
| Utf8Encoding.DecodeAllEncodeAll | uwildmat.c:87-142 | repeated decoding of the encoding of any sequence of code points gives the sequence back |
| Wildmat.ScanIsCovers | uwildmat.c:150-191 | the scan over a class finds a range that holds the code point exactly if one of the ranges written in the class holds it |
| Wildmat.MatchClass | uwildmat.c:150-191 | the class loop, with `^`, answers whether the class admits the code point |
| Wildmat.MatchBracket | uwildmat.c:263-280 | the `[` case finds its `]` and goes on behind it, or aborts without one, as the parsed class says |
| Wildmat.MatchLiteral | uwildmat.c:213-221 | an octet standing for itself, perhaps escaped, is compared and consumed; a backslash at the end aborts |
| Wildmat.MatchFromStar | uwildmat.c:227-261 | the `*` case: Yes at the end of the pattern, else the answer of the star loop |
| Wildmat.SkipStarOctets | uwildmat.c:228-231 | consecutive stars are one star |
| Wildmat.MatchStar | uwildmat.c:247-261 | the star loop with its look-ahead for a literal gives the answer of trying every place in turn, Abort included |
| Wildmat.MatchPattern | uwildmat.c:198-285 | the whole matcher computes the three-valued search over the parsed elements |
| Wildmat.MatchSimple | uwildmat.c:388-399 | true exactly if that search over the whole pattern says Yes, the shortcut for `*` included |
| WildmatSemantics.YesIsRight | uwildmat.c:198-285 | whatever the matcher accepts, the naive reading matches |
| WildmatSemantics.NoIsRight | uwildmat.c:198-285 | an answer No is never a lost match, on any text |
| WildmatSemantics.StarLoopNeverNo | uwildmat.c:247-261 | a star loop answers Yes or Abort, never No |
| WildmatSemantics.AbortIsRight | uwildmat.c:208-261 | on a text in which starting later never ends earlier, Abort means that no suffix of the text matches |
| WildmatSemantics.AbortIsRightHere | uwildmat.c:198-285 | with no `?` and no class behind the first star Abort is no lost match, on any text |
| WildmatSemantics.PatternDecides | uwildmat.c:198-285 | such a pattern is matched exactly as the naive reading says, on every text |
| WildmatSemantics.ElementsAgree | uwildmat.c:198-285 | on a text without a complete sequence of three or more octets every element list is matched exactly as read |
| WildmatSemantics.LongSequenceLoses | uwildmat.c:223-261 | for every text with such a sequence a pattern whose match the matcher misses |
| WildmatSemantics.TextDecidesExactly | uwildmat.c:198-285 | matcher and naive reading agree on a text for all patterns if and only if it holds no complete sequence of three or more octets |
| WildmatSemantics.MalformedMatchesNothing | uwildmat.c:213-272 | a pattern with an unclosed class or a backslash at its end matches no text |
| WildmatSemantics.QuestionsCountCharacters | uwildmat.c:223-225 | n question marks match exactly the encoded texts of n characters |
| WildmatSemantics.ClassReadsCodePoint | uwildmat.c:263-280 | a class in front of an encoded text reads its first code point and consumes exactly its octets |
| WildmatExpression.FindSplit | uwildmat.c:321-335 | the loop finds the next comma that is neither escaped nor inside brackets, where a bracket opens even behind a backslash |
| WildmatExpression.MatchExpression | uwildmat.c:296-349 | the loop over the pieces with its shortcut computes the running verdict |
| WildmatExpression.PatternStep | uwildmat.c:321-341 | a well-formed piece, escaped brackets and classes with a leading `]` included, is parsed as what it means, and the search for a comma passes over one without an escaped bracket and without `[^]` |
| WildmatExpression.CutExactly | uwildmat.c:321-335 | any piece is cut where it ends if and only if, read on its own, it has no comma outside brackets and closes every bracket it opens |
| WildmatExpression.CutsExactly | uwildmat.c:312-335 | an expression is cut at the commas between its pieces if and only if all its pieces are such |
| WildmatExpression.AlikeIsSeparable | uwildmat.c:321-335 | all pieces without an escaped bracket and without `[^]` are |
| WildmatExpression.EscapedBracketLost | uwildmat.c:321-335 | the expression `\[,x` does not match the text `x`: the scanner takes the escaped bracket for a class that is never closed |
| WildmatExpression.RunningIsLast | uwildmat.c:337-348 | skipping pieces that could not change the verdict leaves the verdict of the last matching piece |
| WildmatExpression.ExpressionDecides | uwildmat.c:296-349 | the result for any list of well-formed pieces cut as written is the verdict of the last piece the matcher accepts, Fail without one |
| WildmatExpression.ExpressionMeansReference | uwildmat.c:296-349 | on texts without long sequences, or with no `?` and no class behind the first star of any piece, the result for pieces cut as written is the verdict of the last piece that matches by the naive reading, the rightmost-match rule of section 4.2 of RFC 3977 |
| WildmatForms.ClassNames | uwildmat.c:150-191 | a class written from code points and spans `lo-hi` matches an encoded code point, whatever follows, exactly if it is one of them or lies in one of the spans, and takes just that |
| WildmatForms.CaretClassNames | uwildmat.c:150-191 | with `^` in front exactly if it is none of them |
| WildmatForms.CaretNegates | uwildmat.c:150-191 | whatever stands in a class, `^` in front of it negates the answer for every code point |
| WildmatForms.ClassAdmitsNamed | uwildmat.c:263-280 | the whole pattern `[items]` or `[^items]` matches the text of one code point exactly if it is named, or not named |
| WildmatForms.StarAdmitsAll | uwildmat.c:227-238 | the pattern `*` matches every text |
| WildmatForms.EscapeAdmitsItself | uwildmat.c:213-221 | a text with a backslash before every octet matches itself and nothing else |
| WildmatForms.StarBetween | uwildmat.c:227-261 | `a*b` for escaped texts a and b matches exactly the texts that start with a and end with b behind it |
| WildmatForms.MarksCountCharacters | uwildmat.c:223-226 | the pattern of n question marks matches exactly the encoded texts of n code points |
| WildmatForms.MarkDecides | uwildmat.c:312-349 | of the last accepted piece the mark decides: a match without one, none for `!`, poison for `@` |
| WildmatForms.NoneDecides | uwildmat.c:312-349 | no match where no piece is accepted |
| WildmatForms.AllBut | uwildmat.c:312-349 | `*,!p` matches exactly what p does not, and `*,@p` is poisoned by exactly what p matches |
| WildmatForms.AtIsPlain | uwildmat.c:313-317 | where poison is not asked for, a leading `@` is an octet of the pattern |
| SessionTables.Master.FindSlot | client.c:41-83 | the scan that counts the address's slots and claims the first free one finds none exactly if no slot is free or the address holds its positive limit already; else the slot is in use, has its own number and the address, the others are as they were, and the address holds one more, which the slot records |
| SessionTables.CountIpIsNumber | client.c:48-66 | the slots counted for an address are those that carry it |
| SessionTables.TakenCounts | client.c:48-80 | a slot taken for an address makes them one more |
| SessionTables.Master.FindUser | client.c:91-130 | the scan takes the user's slot or the first empty one, counts the reference, and counts a new user |
| SessionTables.Master.DropUserAt | client.c:137-153 | one reference less; with the last one the slot is empty and the user no longer counted |
| SessionTables.Master.FindUserProfile | client.c:231-246 | the scan over the clients finds a profile of the key, if any client has one |
| SessionTables.Master.FreeClient | client.c:17-20 | the slot is all zero, the others are as they were |
| SessionTables.Master.CountClient | nntpd.c:173-176 | the locked part of run_child: profile count, then user |
| SessionTables.Master.CloseClient | client.c:207-221 | the locked part of close_child: profile count, user reference, slot |
| SessionTables.Master.MoveClient | reader.c:461-475 | the locked end of an authentication: off one profile and user, onto the others |
| SessionInvariants.UsersOkKept | client.c:91-153 | every step keeps: a user slot counts the clients pointing at it plus references in flight, is empty exactly at 0, and keys are unique |
| SessionInvariants.ProcsOkKept | nntpd.c:119-243 | every step keeps: phase, slot and pointers of every process agree, and its user slot is occupied by the user it asked for |
| SessionInvariants.StepLocal | reader.c:419-475 | a step changes the slot and the process of one client only |
| SessionCounts.LockOkKept | semaphore.c:21-53 | every step keeps: the semaphore counts the processes inside the lock |
| SessionCounts.MutualExclusion | semaphore.c:21-53 | no two processes are inside the lock, nor a process and the daemon |
| SessionCounts.ProfilesOkKept | reader.c:461-475 | every step keeps: the connections of a profile are the counted clients on it |
| SessionCounts.NeverDropsZero | client.c:209-219 | where a client leaves its profile, the count is above 0: the complaints about dropping 0 connections are never made |
| SessionUsers.UserCountKept | client.c:126-151 | every step keeps: the users of all profiles sum up to the global count, which is the number of occupied slots |
| SessionUsers.PerProfileKept | client.c:126-151 | with profiles chosen by the user's name every step keeps each profile's own count exact |
| SessionDrift.PerProfileDriftsExactly | client.c:91-153 | two clients of a new user come with profiles p and q and leave again: the user table is restored, and the profiles' counters if and only if p and q are the same |
| SessionDrift.CountersClearExactly | client.c:126-151 | every run from empty tables within a relation of names and profiles that leaves nobody leaves all user counters at 0, if and only if the relation gives every name one profile at most |
| SessionDrift.StickyRunExact | reader.c:356-371 | over every run in which a known user gets the profile of its holders each profile counts exactly the users whose holders are on it |
| SessionUsers.OccupiedAtMostHeld | client.c:91-130 | occupied user slots never outnumber the references clients hold |
| SessionUsers.ConnectFindsUser | nntpd.c:173-176 | a connecting client finds a user slot if fewer authentications are in flight than processes have no user: MAX_USERS is MAX_PROC |
| SessionUsers.QuietConnectFindsUser | nntpd.c:173-176 | in particular with nothing in flight |
| SessionSteps.AdmitExactly | nntpd.c:236-243 | a connecting client with a user is let in if and only if it is exempt or the references to the user, its own included, are at most the limit |
| SessionSteps.AdmitMeans | nntpd.c:236-243 | a client that is let in is served, checked against the limit unless exempt, and no table changes |
| SessionSteps.MoveExactly | reader.c:419-437 | an authenticated client is let on if and only if the user is its own already or the references to it, its own included, are at most the limit, and else refused |
| SessionSteps.AcceptMeans | reader.c:419-446 | a client that is let on has the limit noted, and the lock is given back exactly for the sharing request |
| SessionSteps.FirstOfUserMoves | reader.c:419-437 | so a user nobody else refers to is let in under any limit but 0 |
| SessionSteps.CountMeans | nntpd.c:173-176 | connecting counts the profile once more and takes the user of the host name, counted once more |
| SessionSteps.FindMeans | reader.c:419-419 | looking up the new user takes the one with the name given, counted once more, and leaves the client's slot as it is |
| SessionSteps.CommitMeans | reader.c:461-475 | the client has the user and profile it asked for, its old profile counts one less and the new one one more if they differ, the old user is given back, and a new one was checked against the limit |
| SessionSteps.CloseMeans | client.c:207-221 | a client that closes leaves its slot zero, its profile counting one less, and its user given back, empty if it was the last |
| SessionSteps.RefuseRestores | reader.c:419-433 | a refused authentication leaves all tables as they were before the look-up |
| SessionSteps.ShareDecides | reader.c:441-458 | the answer to the sharing request decides whether the client moves or gives up, and changes no table |
| SessionSteps.RefusedKeeps | reader.c:447-456 | over any run of all processes, a client that is refused keeps its slot, user and profile until it is served again |
| SessionSteps.AuthenticatedKeeps | reader.c:308-309 | over any run of all processes, a client that has authenticated keeps its user and profile until it closes |
| SessionSteps.LockIsGivenBack | reader.c:349-498 | from any state in which a client holds the lock, at most three steps of it free the lock: nobody waits for a process that cannot go on |
| SessionLimits.LimitKept | nntpd.c:236-243 | every step keeps: no more clients of a user have passed a limit than it allows |
| SessionLimits.AdmittedWithinLimit | reader.c:419-437 | so no more clients than the limit are admitted to a user after a check against it, exempt clients that an authentication checked among them |
| SessionLimits.SlotsWithinLimitKept | daemon.c:223-225 | a step that claims a slot within the limit of an address keeps the address within it |
| SessionLimits.InvKept | nntpd.c:119-243 | all of these invariants together are kept by every step |
| SessionLimits.InitialInv | client.c:17-20 | and hold of empty tables |
| SessionLimits.EveryRunIsSafe | reader.c:419-475 | at the end of every run: exact reference counts, empty exactly at 0, every admitted client checked unless exempt, admissions within any limit, one lock holder |
| SessionLimits.RunSlotsWithinLimit | daemon.c:223-225 | over every run an address with a fixed limit never holds more slots |
| SessionLimits.RunPerProfile | client.c:126-151 | over every run with profiles chosen by name each profile counts exactly its users |
| Balancer.PickIsFirst | server.c:284-327 | the recursion chooses the first server with room in cyclic order from the cursor, leaves the cursor just behind it, and below the number of servers |
| Balancer.PickRunsOff | server.c:284-327 | with the default server counted too, it chooses up to the end of the list only and leaves the cursor there |
| Balancer.PickEndsExactly | server.c:299-327 | the recursion ends if and only if the level has room, has no server, or shares its level with the default server |
| Balancer.ChoiceIsPick | server.c:284-327 | the k-th choice without full servers is what the recursion chooses |
| Balancer.CursorIsModular | server.c:284-292 | after k choices without full servers, the default server being elsewhere, the cursor has moved k places round |
| Balancer.ChosenEvenly | server.c:284-327 | while nobody is full and the default server is elsewhere, of k choices each of n servers gets k / n, and the k % n next from the cursor one more |
| Balancer.ChoosesForeverExactly | server.c:267-327 | while nobody is full, every choice of a level finds a server if and only if the default server is elsewhere |
| Balancer.ChoicesNear | server.c:284-327 | each choice of another process takes the shared cursor at most n - 1 places away from a server with room |
| Balancer.HasSubstituteExactly | server.c:452-458 | the question of the start-up check for the server at place j of its level is answered if and only if the level has two servers and j is not the second, default server on it or not |
| Backends.ParsedTable | server.c:109-248 | a table that is read has unique names, the default server first, and no level above that of the last groups line |
| Backends.LevelRead | server.c:118-166 | a server has the level of its last groups line, and the default server's without one |
| Backends.FieldsRead | server.c:118-248 | a server has the name of its block, and limit, policy and groups of the block's last such line, else of the default block's, else no limit, single and no groups |
| Backends.SameLevelExactly | server.c:118-166 | two servers share a level exactly if one block gives it to both, or all groups lines between the two blocks say the same |
| Backends.CountsListed | server.c:88-94 | a level's count over all servers is the servers listed on it plus the default server if it is there |
| Backends.OrderServers | server.c:88-94 | the list holds everyone but the default server, higher levels first |
| Backends.IsListed | server.c:88-94 | everyone but the default server stands on the list of the own level |
| Backends.PassesExactly | server.c:440-463 | while nobody is full a level passes the start-up check if and only if all its servers have policy single, or it has two servers and the first without policy single is not the second |
| Backends.AllPassExactly | server.c:440-463 | so the start-up check lets the program start if and only if every level is such |
| Backends.ServerTable.CheckServerRedundancy | server.c:440-463 | the loop over the list passes if and only if every level does, each being asked once, at its first server without policy single; the cursors of the levels asked are left where the choice leaves them, the others at 0 |
| Backends.ServerTable.GetServer | server.c:251-260 | the first server with the name |
| Backends.ServerTable.ParseServer | server.c:109-248 | a block adds a server filled from the default one and the lines of the block, each groups line counted, or stops at a known name or a missing default |
| Backends.ServerTable.LoadServers | server.c:54-106 | loading succeeds exactly on readable non-empty configurations that pass the start-up check with nobody connected, orders the servers, and leaves the cursors where the check does; fewer than MAX_LEVEL levels are assumed |
| Backends.ServerTable.CountServerLevel | server.c:267-277 | the loop counts the servers of a level |
| Backends.ServerTable.AddLevelUsage | server.c:284-292 | one cursor moves on or rolls over, the others stay |
| Backends.ServerTable.GetNextServer | server.c:299-327 | the walk over the list with its recursion chooses what `Pick` chooses, wherever that ends |
| Failover.GoodServerFound | server.c:388-433 | on a level without the default server, with one of n servers always up and never full, nobody else of policy single, and at most m choices of other processes meanwhile, the client is connected after at most n + 1 + m(n - 1) attempts, whatever the other servers do |
| Failover.GoodServerFoundExactly | server.c:388-433 | with nobody else of policy single, and given what the servers do, this holds from every cursor in range if and only if the default server has another level, or the server asked for is tried itself, not having policy balance and not being a full one of policy backup, and accepts |
| Failover.ConnectsExactly | server.c:334-433 | with one good server, the client is connected from every cursor and whatever the other servers and processes do, if and only if the default server has another level and nobody else on the level has policy single, or the good server is the one asked for and has not policy balance |
| Failover.CursorStuck | server.c:334-380 | with the default server on the level the cursor can stand behind the last server, and nobody gets a server of a balanced level or a substitute for a primary one |
| Failover.SharingConfiguration | server.c:109-128 | servers without a groups line share the default server's level, in a configuration that the start-up check lets pass |
| Failover.Starved | server.c:415-421 | with one server down and n - 1 choices of others between its attempts the client is sent to that server every time, whatever the others accept |
| Failover.NeverGivesUp | server.c:415-428 | with neither the default server nor one of policy single on the level neither error is returned while there is room; with all servers down the loop never ends |
| Failover.DeadLevelEndsExactly | server.c:365-428 | on a level where nobody accepts the loop ends if and only if the default server or one of policy single is there; for a level with one of policy single that is said while nobody is full and the other processes are idle |
| Failover.DeadLevelEndsAlways | server.c:365-428 | it ends whoever is full and whatever the other processes choose if and only if the default server is there or the server asked for has policy single |
| Failover.SeenBehind | server.c:284-304 | a client that reads the cursor between the increment and the roll of another process gets no server, on a level with room: an error at its first choice, given up at a later one |
| Failover.Client.SelectPrimary | server.c:334-357 | the branches by policy choose what `Primary` says |
| Failover.Client.SelectBackup | server.c:365-380 | no substitute for policy single, else the next server of the primary's level from where others left the cursor |
| Failover.Client.ConnectGroupserver | server.c:388-433 | a client on a server of the same groups stays; otherwise code, server, cursor and number of attempts are those of `Connect`; OK is returned exactly to a connected client, ERR only without an attempt, DOWN only behind one and without a server |
| Groups.NamesOrdered | updategroups.c:344-350 | comparing names as strcmp does is a total order |
| Groups.Bsearch | updategroups.c:52-63 | what the search finds has the name, in any list; in a sorted one it finds every name there is |
| GroupMerge.AscendingExactly | updategroups.c:220-239 | merging into known groups keeps names unique if and only if the listing names no new group twice |
| GroupMerge.Updater.Collect | updategroups.c:199-237 | the loop over a listing adds exactly the new groups, also into an empty table whose growing part it searches out of order, if that listing names no group twice |
| GroupMerge.Updater.GetlistActive | updategroups.c:173-242 | a listing merged and sorted: nothing lost, nothing added twice, stops exactly where the groups do not fit |
| GroupMerge.MergeStep | updategroups.c:199-239 | one more listing without duplicates keeps: in order, each name once, from the first listing that has it |
| GroupMerge.Updater.UpdateServer | updategroups.c:124-170 | the same for all listings of a server |
| GroupMerge.EachLevelOnce | updategroups.c:104-110 | the main loop asks one server of every level, lower levels first |
| GroupMerge.LowestLevelWins | updategroups.c:104-110 | so the server of the lowest level that lists a name keeps the group |
| GroupMerge.Updater.UpdateGroups | updategroups.c:104-110 | the main loop's result is the merge of the answers in that order |
| GroupLines.OffersExactly | updategroups.c:199-237 | a listing offers a group if and only if one of its lines has the name, no longer than the limit, with the last article as high and the first as low mark |
| GroupLines.MergedExactly | updategroups.c:199-237 | the merged table holds a group if and only if it is such a line of a listing and no listing before names it |
| GroupLines.GatheredCounts | updategroups.c:220-221 | the groups taken in are one for each distinct name read, so the table is full exactly where there are more names than it holds |
| ActiveFile.TenCharacters | updategroups.c:367-373 | a number printed with ten digits comes back through a ten-character field if and only if it is in [0, 10^10) |
| ActiveFile.RowReadsBackExactly | active.c:104-117 | a row with clean words is scanned back as its group if and only if both marks are in [0, 10^10) and the time in [0, 2^32) |
| ActiveFile.LoadWrittenExactly | active.c:105-126 | loading what was written gives the table back if and only if it is smaller than MAX_GROUPS and all its servers are known |
| ActiveFile.MergedReadsBack | active.c:85-137 | the merge of clean listings is read back as it was, sorted for the search |
| ActiveFile.SampleRow | active.c:104-118 | a row as it stands in the file: name, high and low mark in ten digits, mode, server, time |
| ActiveFile.NumberIsCutOff | active.c:104-116 | a time too large for a long is read as the end of the long, and then its low 32 bits |
| ActiveFile.NoNumber | active.c:104-109 | where no number stands the scan fails behind spaces and one sign |
| ActiveFile.WriteActive | updategroups.c:353-377 | the file holds a row for each group, in order; a table in order is written as it is |
| ActiveFile.ActiveTable.LoadActive | active.c:85-137 | the loop of scans ends with the table that scanning entry after entry gives, or stops where that stops |
| ActiveFile.ActiveTable.GetGroup | active.c:160-168 | on a sorted table the binary search finds a name exactly if a linear scan would, names too long for the field included |
| BlockRelay.CheckbufInit | common.c:180-187 | the window starts with the implied line end |
| BlockRelay.CheckbufIsEnd | common.c:190-232 | the answer and the new window for one read of any length |
| BlockRelay.Client.Relay | reader.c:102-123 | the loop forwards the reads up to the first stop and charges the counters for them |
| BlockRelay.StopsIsEnded | common.c:190-232 | if the window is up to date the read is judged exactly by whether the block has ended |
| BlockRelay.NoShortPairStopsRight | common.c:190-232 | without two consecutive reads under five octets the relay stops exactly where the block ends |
| BlockRelay.BlockRelayed | reader.c:102-123 | then a whole block, cut in any such way, is forwarded exactly, and its last read and no other stops the relay; section 3.1.1 of RFC 3977 |
| BlockRelayExact.LengthsDecideExactly | common.c:190-232 | the relay stops right on all data cut into these lengths if and only if no read is one that the window misjudges |
| BlockRelayExact.MisjudgedSometimes | common.c:196-212 | for every misjudged read data on which the relay stops too early or too late |
| BlockRelayExact.ChargeExact | reader.c:117-118 | the byte allowance goes down by exactly what was relayed, as far as it lasts |
| PrefixMaps.CoversBlockExactly | auth/prefixmap.c:79-97 | the bits of a prefix are its CIDR block if and only if it is at most /24 and aligned |
| PrefixMaps.AlignedFits | auth/prefixmap.c:86-96 | an aligned prefix sets bits in the first 2^21 octets only |
| PrefixMaps.AllWithinMap | auth/prefixmap.c:86-96 | no prefix from /2 on sets a bit outside the map |
| PrefixMaps.MarkedIsListed | auth/prefixmap.c:148-160 | with aligned prefixes a network is marked exactly if a listed block contains the address |
| PrefixMaps.PrefixMap.ParsePrefix | auth/prefixmap.c:79-97 | the loop sets the bits of the prefix and no others |
| PrefixMaps.PrefixMap.LoadPrefixmap | auth/prefixmap.c:53-76 | the bits after loading are those some line covers, nothing of an older file is left |
| PrefixMaps.PrefixMap.Lookup | auth/prefixmap.c:148-160 | the bit of the address's /24 |
| PrefixMaps.ProfIplookup | auth/prefixmap.c:115-124 | the fail profile exactly if the profile has a map and no line of its file covers the network of the address; for aligned prefixes up to /24, if no listed block contains the address |
| KeyedTables.PutAllTwice | access.c:490-515 | writing a list of entries by key twice is writing it once |
| KeyedTables.PutAllExtends | access.c:501-514 | entries keep their places, and keys stay unique |
| ProfileTable.MergedAbsorbs | access.c:420-460 | after the reading a profile holds all its blocks assign, the last assignment of a setting standing |
| ProfileTable.MergeAllTwice | access.c:174-357 | merging the same profile blocks twice is merging them once, defaults for zero settings included |
| ProfileTable.CountersKept | access.c:431-452 | blocks leave the live counters of known profiles alone; a new profile starts with its counts at 0 |
| AccessTables.ReadKeepsPlaces | access.c:111-171 | reading a file keeps every entry of all four tables in its place and keys unique |
| AccessTables.FirstMatchKept | access.c:731-752 | so an address or a user that had an entry is answered by the same entry after a reload |
| AccessTables.AclRangeExactly | access.c:562-566 | the range of an access list entry is its CIDR block if and only if its address is the first of the block |
| AccessMeaning.RightsExactly | access.c:591-619 | words are accepted exactly if all are rights, and exactly the rights written are granted |
| AccessMeaning.AclMeans | access.c:543-634 | when an access list line is accepted, and that it gives its range, and no other, the rights written and the profile named, or the default one if it is there |
| AccessMeaning.AliasMeans | access.c:490-515 | an alias has the library and arguments written, and no other changes |
| AccessMeaning.AuthMeans | access.c:22-60 | an authenticator line is accepted if and only if its alias and profile, or the default ones, are known, and gives its mask these two |
| AccessMeaning.BlockMeans | access.c:420-460 | field by field, a profile has what the last line of the block about it says, else what it had, else what the default profile has, with the defaults for absent and zero fields |
| AccessMeaning.BlockAccepted | access.c:420-460 | a block is accepted if and only if its profile or the default one is there, its lines are known, there is room, and a hostname |
| AccessMeaning.LoadNeeds | access.c:73-81 | loading needs the profile `default` and the aliases `auth_default` and `acct_default`, and nothing else of the tables |
| AccessMeaning.AuthNeedsModule | access.c:83-88 | a new authenticator needs the module of its alias |
| AccessMeaning.AccountingNeedsModule | access.c:90-95 | a profile needs the module of its accounting alias |
| AccessMeaning.ModulesMean | access.c:83-95 | behind the checks every profile accounts and every mask authenticates with a module there is |
| AccessMeaning.AuthByMask | access.c:837-846 | the mask `*` answers for every user, an escaped name for that user alone |
| Reload.ResolveStays | access.c:31-47 | names looked up again are found at the same places; only an entry without a profile may find one it missed |
| Reload.SecondReading | access.c:111-171 | a second reading of the same file goes through, adds nothing, and makes the same changes |
| Reload.ReloadKeepsRest | access.c:111-171 | loading the same configuration once more, over tables within their sizes, goes through and changes nothing but entries of the access list |
| Reload.ReloadFindsModules | access.c:83-95 | and it passes the module checks if the first loading did |
| Reload.ReloadStableExactly | access.c:571-577 | loading the same configuration once more changes nothing if and only if every access list entry that the file writes has a profile |
| Reload.DanglingExactly | access.c:571-577 | every entry has a profile after a reading, into any table, if and only if each line read without any default profile is followed by one for its range that finds a profile, and each entry that had none is written, as the first of its range |
| Reload.ReloadStableByFile | access.c:571-577 | a reload changes nothing, whatever the table was before, if and only if each line of the file read without any default profile is followed by one for its range that finds a profile |
| Reload.EarlyEntryDangles | access.c:571-577 | a file with an access list line in front of the default profile loads, passes the module checks, leaves the entry without a profile, and changes it when loaded again |
| Reload.ReloadKeepsCounters | access.c:443-451 | a reload leaves the live counters of the profiles there are as they are |
| Access.AccessConfig.GetAcl | access.c:731-740 | the first entry whose range holds the address |
| Access.AccessConfig.GetAuth | access.c:837-846 | the first authenticator whose mask matches the user, by the wildmat matcher |
| Access.AccessConfig.ParseAlias | access.c:490-515 | an alias is overwritten in place or appended, as `Step` says |
| Access.AccessConfig.ParseAuth | access.c:22-60 | an authenticator likewise, its alias and profile looked up or the default ones |
| Access.AccessConfig.ParseAcl | access.c:543-624 | an access list entry likewise, by start and size, its rights read word by word |
| Access.AccessConfig.ParseProfile | access.c:420-460 | a profile block over the profile there is or over a copy of the default one |
| Access.AccessConfig.ReadAcsFile | access.c:111-171 | the loop over the statements computes `ReadFile` |
| Access.AccessConfig.LoadAccessConf | access.c:63-95 | loading succeeds exactly if the reading does, the default profile and aliases are there, and every authenticator and every profile names a module there is |

## Left out

- Sockets, SSL, select, alarms, fork, and signal handlers that call close_child: operating-system behaviour.
- SEM_UNDO and the death of a process inside the lock: a process is assumed to run to its next unlock.
- `nrlocks`, `nrunlocks` and `master->connections`: counters that nothing reads.
- The payload of user slots (rate limits, patterns, remaining bytes): no branch of the modelled steps depends on it.
- `find_user` returning no slot during an authentication is not a step: the source logs it and goes on with a null pointer.
- The checks against MaxUsers, MaxConnections and the Disabled text: a client may close at any time instead.
- The authentication modules: their answer is any name and any profile.
- SessionLimits.EveryRunIsSafe: limits are natural numbers, a negative MaxUserConcurrent converts to a huge limit in the source.
- Byte counters are unbounded; the source's wrap at 2^64.
- The loop exit of the relay on `client->error`, which another function sets, is the failed write of the model.
- Backend `connections`: bookkept wrongly where a login fails, so taken as any numbers at every choice.
- Backends.ServerTable.LoadServers: the start-up check is run with nobody connected, while a reload copies the connections counted at the default server into every block; levels from MAX_LEVEL on, which the source does not check, are excluded.
- The balancing cursor is moved without a lock: in the theorems on fail-over a choice of another process is one step, so its cursor is not seen between the increment and the roll (what happens then is `SeenBehind`), and no increment is lost.
- Failover.Client.ConnectGroupserver: other processes that leave a cursor outside its level are excluded for the same reason.
- A default server block read over an older table keeps fields it does not set; the model starts it blank.
- The text of the configuration files: statements and blocks are taken after their scan, names as strings without a size limit.
- Access list lengths above /32 and prefix lengths 0, 1 and above 32: shifts without a defined value; the length 1 of an access list entry is taken as 2^31 addresses.
- Wildmats, args, vhosts, include files, footers and daily limits of the access configuration: more tables of the same kind.
- Access.AccessConfig.LoadAccessConf: a profile without an accounting alias stops the program at the module checks; in the source the check follows a null pointer there.
- LIST active.times and LIST newsgroups of the updater: the times field is 0 after a merge.
- The scan of a list line into four fields: lines are taken after it.
- strtok on SplitList groups: a server's listings are given, one a query.
- Groups.Bsearch: the search itself is the C library's, so only what the standard promises of it is used, and of qsort a sorted permutation.
- The rate limiter, the date parser, time limits, header lists, logging and statistics.
