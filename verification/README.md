# bootstash: a verified model

bootstash is a daemon that gives each signed-in user a private directory of files, a cubby. This Dafny
project models the parts of it that carry state from one request to the next and proves what they
promise, over every input, every interleaving and every run. `dafny verify dfyconfig.toml` checks all of it.

| file | subject |
|---|---|
| `Text.dfy`, `Paths.dfy` | splitting and joining; the jail's path normaliser as a stack |
| `Tree.dfy`, `Jail.dfy` | inodes, one system call at a time; `walk`, `resolve` and `parentOf` against a tree that may change before every call |
| `Resolver.dfy`, `Physical.dfy` | a still tree: `resolve` and `parentOf` as bounded rewriting, for all flags and errors, and against a physical resolver (XBD section 4.13 of POSIX.1-2017) |
| `Replace.dfy` | the atomic replace, with a fault at any step |
| `Store.dfy`, `StateDir.dfy` | links, sessions and pins as data, and the locked operations as the program runs them |
| `Protocol.dfy`, `History.dfy`, `Runs.dfy` | the store as a protocol: locked operations one file access at a time, unlocked reads and deletes in between; its state told from the steps of a run; and particular runs |
| `Tickets.dfy`, `Redemption.dfy` | the OpenVPN ticket table, and tickets minted and redeemed while the store moves |
| `Token.dfy`, `Login.dfy` | the signed OAuth state (section 10.12 of RFC 6749), the transaction table and the callbacks |
| `Listeners.dfy` | `Manager.Sync` |
| `Put.dfy`, `PutOnTree.dfy` | recursive put on a map of paths, and that map's `mkdir` and replace derived from the jail's walk over inodes |
| `Repair.dfy`, `Titler.dfy`, `Cubbies.dfy` | mode repair, profile titles, cubby paths |
| `Wrappers.dfy`, `Clock.dfy` | options and units of time |

## How the outside is modelled

- A `World` gives the tree, an injected error and the next inode number for every system call, so a
  statement about all worlds is a statement about all schedules of changes by other processes. An
  `openat` of anything but a plain entry name may return anything at all.
- Time is a number that never goes back; random ids are fresh; the MAC is any function of the payload;
  the address hash is injective where that matters; base64 and JSON are left off both ends.
- The lock is mutual exclusion between the closures passed to `withLock`. Files written by rename change
  in one step. Nothing outside the lock touches `links.json`, so a read and write of that file is one step.
- `GetSession` is a read; its removal of an expired file is a `Remove` step, which may come at any time
  and for any id. What a handler holds is any session ever read (`seen`), however stale.
- Listening, resolving and enumerating an interface are functions of the target; PAM and the identity
  provider answer as they like, and so does the link lookup inside `gateIdentity`.

## What turned out otherwise

- **Links and sessions can disagree after a vanished file.** `clearMatchingSessionsLocked` returns when a
  listed file cannot be read, so a logout that falls between the listing and that read leaves later
  sessions with the user whose link is gone (`Runs.AgreementFails` is such a run). The damage is confined:
  in every run, whatever stops, a session disagrees only if its user is one a scan stopped for and who has
  not been unlinked since (`Protocol.AgreementAlways`, `Protocol.DirtyCause`). For one stop, agreement
  holds exactly if no file still to be read would have been cleared (`Protocol.AbortedScanAgreesIff`), and
  `Protocol.StoppedScanLeaves` says what an UnlinkPAM and what a SaveLinkedSession leave behind. Unlinking
  the affected user repairs it, after any number of stopped attempts and with anything in between
  (`Protocol.RetryRepairs`, `Protocol.UnlinkAgain`).
- **A retried unlink converges except for password-only sessions.** A password typed on a password-only
  session whose user was unlinked writes a row for the empty subject. With such a row naming p, an
  uninterrupted UnlinkPAM(p) signs out the password-only sessions of *every* user, and a retry of an
  interrupted one does not: `Runs.RetryFails` is a run from the empty store to such a state, and
  `Store.RetryConverges` is the exact condition.
- **A lexical ".." is not a physical one.** `Physical.DotDotAfterASymlink` gives a family of trees and
  paths where the jail and a physical resolver part. The jail's answer is confined either way, and they
  agree when every name a ".." cancels is a directory and not a symlink (`Physical.JailAgreesWithPhysical`).
- **Even then the jail is not POSIX resolution (XBD section 4.13) below its root.** It opens a file with a
  slash after it (`Physical.SlashAfterAFile`), refuses a link with an absolute text, which POSIX would start
  over at the root (`Physical.AbsoluteLink`), refuses ".." at the root, where POSIX stays, and takes the null
  pathname for the root, which POSIX refuses (`Physical.RootAndNull`). Texts with a backslash or NUL aside,
  and with at most seven expansions on both sides, there is no other difference:
  `Physical.JailAgreesWithPhysical` is exact in both directions.
- **`refuseSelfCopy` does not recognise a source of "/"** unless the destination is "/" too
  (`Put.RefusesSelfCopyIff`). Nothing follows from it: `putTarget` refuses "/" first
  (cmd/bootstash/put.go:321-325), and a source ".." whose absolute form is "/" gets a target that ends in
  "..", which `mkdirAll` refuses (cmd/bootstash/put.go:425-427).
- `fixCubbyDirChildren` repairs the whole tree, although the comments on its callers speak of immediate
  children (internal/web/auth.go:374-376, internal/web/home.go:144-146). The model follows the code.

## Model

| member | source | states |
|---|---|---|
| Paths.ComputeComponents | internal/jail/jail.go:356-381 | the push-and-pop loop computes the stack fold of the path's parts, or refuses |
| Paths.ComponentsAreSimple | internal/jail/jail.go:356-381 | every component is non-empty, not "." or "..", and free of "/", backslash and NUL |
| Paths.ComponentsOfJoin | internal/jail/jail.go:331-341 | splitting joined components gives them back |
| Paths.ComponentsIdempotent | internal/jail/jail.go:356-381 | normalising twice is normalising once |
| Paths.JoinComponentsIsFold | internal/jail/jail.go:383-389 | joining a link text to a base folds the text's parts onto the base as a stack |
| Paths.JoinComponentsFailsExactly | internal/jail/jail.go:356-389 | it fails exactly on a malformed text, or when some prefix of the parts pops more than the stack holds |
| Jail.FollowLink | internal/jail/jail.go:302-323 | the error branch of a walk, with each of its system calls at its own moment |
| Jail.Walk | internal/jail/jail.go:279-329 | the loop over components computes the specified walk under every schedule |
| Jail.WalkConfined | internal/jail/jail.go:279-329 | from any point of a walk: what it opens was reached by a trail of entries, and what it rewrites to is again plain names |
| Jail.ResolveConfined | internal/jail/jail.go:261-277 | over all restarts, whatever the tree does between calls |
| Jail.Resolve | internal/jail/jail.go:261-277 | a returned descriptor is the root or reached from it by following one existing, non-symlink entry at a time, in time order, only the last possibly created |
| Jail.ParentOf | internal/jail/jail.go:331-346 | the same for the parent directory, with the plain last name; the root itself is refused |
| Resolver.ResolveIsBoundedRewriting | internal/jail/jail.go:261-329 | on a still tree, for any flags: resolve returns x exactly if at most seven replacements of the first symlink by its text give a symlink-free path to x of a kind the flags allow, or with O_CREAT a free name under which x is made; and it returns an error exactly if the path is refused, such a path is blocked for that reason, or seven replacements are not enough |
| Resolver.OpenIsBoundedRewriting | internal/jail/jail.go:61-69 | reading: exactly what at most seven replacements lead to |
| Resolver.ParentIsBoundedRewriting | internal/jail/jail.go:331-346 | parentOf follows symlinks up to the last name and never the last: it returns exactly the directory that at most seven replacements in the rest lead to, with that name |
| Resolver.ParentFails | internal/jail/jail.go:331-346 | its errors, each exactly when: the path's, the root itself, those of the way to the parent |
| Physical.JailAgreesWithPhysical | internal/jail/jail.go:261-329 | when every name a ".." cancels is a directory: a node the jail returns is the one POSIX resolution returns, which refuses it exactly for the null pathname or if a part is left over at a file; and if no text is malformed, the jail returns what POSIX returns exactly if the way takes no ".." at the root and meets no absolute text, and refuses otherwise |
| Physical.PhysIsPosix | internal/jail/jail.go:261-329 | what the confined resolver answers, POSIX resolution answers, or refuses exactly if the way stands on a file with a part still to follow |
| Physical.PosixIsPhys | internal/jail/jail.go:368-372 | what POSIX resolution answers, the confined resolver answers, or refuses exactly if the way takes ".." at the root or meets an absolute text |
| Physical.PhysFold | internal/jail/jail.go:310-320 | from a directory, following a text physically is folding it onto that directory's path, if every name a ".." cancels is a directory |
| Physical.DotDotAfterASymlink | internal/jail/jail.go:368-372 | a family of trees and paths where the lexical and the physical answer differ |
| Physical.SlashAfterAFile | internal/jail/jail.go:356-381 | "f/" where f is a file: the jail opens it and POSIX refuses; for "f" both give the file |
| Physical.AbsoluteLink | internal/jail/jail.go:310-312 | a link to "/f": the jail refuses and POSIX finds f below the root |
| Physical.RootAndNull | internal/jail/jail.go:356-372 | ".." is refused where POSIX stays at the root, and the null pathname is the root where POSIX refuses |
| Replace.Disk.Replace | internal/jail/jail.go:86-124 | at every moment the name shows the old node or the whole new body, no other name or inode changes, success and failure leave exactly the described tree, and when each happens |
| Replace.Disk.Copy | internal/jail/jail.go:108-111 | the copy succeeds exactly if no read or write breaks, and only the temporary file grows |
| Replace.Disk.Rename | internal/jail/jail.go:119-123 | the rename puts the whole body under the name and takes the temporary name away, in one step |
| Replace.Disk.Discard | internal/jail/jail.go:103-107 | the cleanup restores exactly the tree from before |
| Replace.StagedIsPromised | internal/jail/jail.go:96-118 | a half-written temporary file keeps every promise to observers |
| Store.LinkOfWithout | internal/store/store.go:386-395 | dropping the rows of a user forgets exactly the subjects linked to that user |
| Store.WithLinkMembers | internal/store/store.go:354-371 | setting a link keeps one row per subject and changes that subject alone |
| Store.UnlinkBreaksExactlyHits | internal/store/store.go:375-415 | from agreement, dropping the rows makes exactly the sessions disagree that the scan clears |
| Store.UnlinkedMeans | internal/store/store.go:375-403 | a session loses its user exactly if that is the user or its subject had a row naming the user; nothing else changes |
| Store.CountIsChanged | internal/store/store.go:427-456 | the count of a scan is the number of sessions it changes |
| Store.RelinkBreaksExactlyHits | internal/store/store.go:317-352 | the same for moving a subject to another user |
| Store.RetryConverges | internal/store/store.go:375-456 | an UnlinkPAM stopped after the links write and any set of session writes is completed by a retry exactly if no password-only session of another user is stranded |
| Runs.RetryFails | internal/store/store.go:317-456 | a run from the empty store to a state where UnlinkPAM(p), uninterrupted, takes another user's password-only session away, and interrupted and retried does not |
| Store.BindWritesOnce | internal/store/store.go:534-555 | a successful bind pins the address to that subject, and no pin ever moves |
| StateDir.FilterInPlace | internal/store/store.go:386-395 | the filter that writes into the array it reads keeps the other rows in order and returns the removed ones |
| StateDir.StateDir.LookupLink | internal/store/store.go:249-260 | finds the first row for a subject |
| StateDir.StateDir.SetLink | internal/store/store.go:354-371 | overwrites that row in place or appends one |
| StateDir.StateDir.ClearMatching | internal/store/store.go:427-456 | clears exactly the matching sessions, in any listing order, and counts them |
| StateDir.StateDir.CreateSession | internal/store/store.go:108-120 | a new session takes the user its subject is linked to; agreement is kept |
| StateDir.StateDir.CreatePAMSession | internal/store/store.go:124-129 | a password-only session; an empty user is refused |
| StateDir.StateDir.SaveLinkedSession | internal/store/store.go:317-352 | the link, the rotated id, the old file gone, no other session of the subject with another user; agreement is kept |
| StateDir.RelinkedMeans | internal/store/store.go:317-352 | every file after it: the rotated one, the old one gone, a moved subject's others without a user, the rest as they were |
| StateDir.StateDir.UnlinkPAM | internal/store/store.go:375-403 | removed rows, cleared sessions and count are exact, no session names the user, agreement is kept |
| StateDir.StateDir.BindSubject | internal/store/store.go:534-555 | first use inserts, the same subject is accepted, another is a mismatch and changes nothing |
| Protocol.InvStep | internal/store/store.go:108-190 | every step, locked or not, keeps ids, rows, and the fact that a session seen without a user keeps none |
| Protocol.FileChange | internal/store/store.go:427-456 | a session file keeps its subject and expiry; its user can only be taken away; a deleted file can only come back without one |
| Protocol.UserNeverRegained | internal/store/store.go:317-352 | in every run the user of a stored id never goes from empty or absent back to a name |
| Protocol.ConsistentStep | internal/store/store.go:317-456 | every step, stopped scans included, keeps this: between lock releases a session of a user no scan stopped for disagrees with the links exactly if the running scan will still clear it, and a scan takes sessions of real subjects from one user only |
| Protocol.AgreementAlways | internal/store/store.go:108-456 | in every run, whenever the lock is free: one row per subject, and a session disagrees only if its user is one a scan stopped for and who was not unlinked since |
| Protocol.AbortedScanAgreesIff | internal/store/store.go:433-441 | after a scan met a vanished file, the sessions that were not stale before agree exactly if nothing the scan had still to read would be cleared |
| Protocol.StoppedScanLeaves | internal/store/store.go:317-441 | a stopped UnlinkPAM(p) leaves no link to p and new stale sessions of p alone; a stopped SaveLinkedSession new stale sessions of its subject alone, all naming the user that subject was linked to when it began |
| Protocol.ScanBegun | internal/store/store.go:317-403 | every running scan was begun by an UnlinkPAM of its user, or by a SaveLinkedSession of its subject whose previous user, a different one, is the one it takes sessions from; no other scan began since |
| Protocol.DirtyCause | internal/store/store.go:427-441 | a user counts as affected only because a scan stopped for that user and no UnlinkPAM of that user began since |
| Runs.AgreementFails | internal/store/store.go:427-441 | a run from the empty store to a free lock with a session naming a user that has no link |
| Protocol.RetryRepairs | internal/store/store.go:375-456 | in every run in which each stopped scan is followed by an UnlinkPAM of its user, a free lock means full agreement, whatever else runs or is deleted in between |
| Protocol.UnlinkAgain | internal/store/store.go:375-456 | if the only stopped scans before were unlinks of p, any number of them, an UnlinkPAM(p) with no stop after it restores full agreement |
| Protocol.UndisturbedScan | internal/store/store.go:427-456 | file access by file access with nothing in between, a scan does what ClearMatching does and releases the lock |
| History.UnlinkCompletes | internal/store/store.go:375-456 | the protocol's UnlinkPAM with nothing in between ends as the operation does |
| History.SaveCompletes | internal/store/store.go:317-352 | the protocol's SaveLinkedSession likewise |
| History.LinkIff | internal/store/store.go:249-371 | in every run a subject is linked to p exactly if the last password typed on one of its sessions was p's and p was not unlinked since |
| History.NewSession | internal/store/store.go:108-129 | a new session of a subject names exactly that user; one made for a password, its user |
| History.SessionOrigin | internal/store/store.go:108-146 | in every run a stored session has the subject, address and expiry of a sign-in: nothing extends it |
| History.SeenIff | internal/store/store.go:151-170 | a handler holds exactly the sessions GetSession read from a file before they expired |
| Protocol.NamedOnlyAfterPassword | internal/web/auth.go:85-140 | whatever names a Unix user was preceded by an accepted password for a name whose account is that user, with a non-zero UID |
| Protocol.AcceptedStep | internal/web/auth.go:197-232 | no step brings in a name that was not accepted |
| Protocol.UnlinkHolds | internal/store/store.go:375-403 | after UnlinkPAM(p) has released the lock nothing names p until a write made for a password of p |
| Tickets.TicketTable.Mint | internal/web/server.go:465-488 | purges, refuses when 1024 live tickets remain, else adds one with two uses and sixty seconds; the bound is kept |
| Tickets.TicketTable.Lookup | internal/web/server.go:518-539 | expired tickets are dropped, a peek leaves the uses, a take counts down and drops at zero |
| Tickets.TicketTable.DropTicket | internal/web/server.go:490-494 | removes that ticket alone |
| Tickets.MintBounded | internal/web/server.go:476-487 | a mint keeps at most 1024 tickets with one or two uses each |
| Redemption.RevocationIsPermanent | internal/web/files.go:584-611 | once the minting session is deleted, expired, rotated or has lost its user, no request started later is served by the ticket, in any interleaving |
| Redemption.GoneStaysGone | internal/web/server.go:499-508 | no store step lets a session that was read once reach its cubby again |
| Redemption.LiveIff | internal/web/server.go:496-508 | in every run the session check of a ticket says yes exactly while the minting session's file is there, unexpired and with its user, a session without a user coming from an identity provider |
| Redemption.UsableIsKept | internal/web/server.go:465-539 | in every run a ticket minted at most sixty seconds ago that served fewer than two GETs and whose session still reaches its cubby is in the table, with exactly the uses left |
| Redemption.UsableIsServed | internal/web/files.go:584-611 | a request whose three accesses fall into such moments is served, whatever happens in between |
| Redemption.GoIff | internal/web/files.go:584-601 | in every run each access of a request, exactly: the peek finds a ticket of at most sixty seconds, the check passes while the session reaches its cubby and drops the ticket otherwise, a GET takes one use |
| Redemption.MintIff | internal/web/server.go:465-488 | in every run a mint succeeds exactly if fewer than 1024 tickets of at most sixty seconds are left, and stores one for the session's cubby with two uses and sixty seconds |
| Redemption.TicketAccounting | internal/web/server.go:465-539 | in every run at most 1024 tickets, one or two uses left, at most two GETs served per ticket, none taken after sixty seconds, from the cubby the minting session had |
| Redemption.HeadNeverConsumes | internal/web/files.go:592-594 | a HEAD takes nothing and removes only tickets older than sixty seconds or whose session no longer reaches its cubby |
| Token.VerifyOfSign | internal/web/server.go:608-645 | verifyState returns the signed nonce exactly if it has no colon and fifteen minutes have not passed since that second |
| Token.VerifyIff | internal/web/server.go:620-645 | verifyState accepts exactly the texts time:nonce:mac whose MAC is that of time:nonce and whose time is at most fifteen minutes ago, and answers with that nonce |
| Token.HexDecodeIff | internal/web/server.go:630-633 | decoding accepts exactly the encoding, in either case of letters |
| Token.ParseIntIff | internal/web/server.go:637-640 | the time is read exactly from a 64-bit decimal numeral with a sign or none and any zeros in front |
| Token.HexRoundTrip | internal/web/server.go:614-631 | decoding the encoded MAC gives it back, and it holds no colon |
| Login.OauthTable.Put | internal/web/server.go:563-580 | purges, refuses when 1024 remain, else stores; the bound is kept |
| Login.OauthTable.Take | internal/web/server.go:582-594 | removes the transaction and returns it only if it has not expired |
| Login.TransactionsAreUsedOnce | internal/web/auth.go:142-211 | in every run a session-making callback consumed a transaction of its own, within fifteen minutes, with the nonce of its state; at most 1024 are open |
| Login.NonceWasVerified | internal/web/auth.go:158-169 | the nonce of a callback stood in its state under the MAC, at most fifteen minutes old when it was checked |
| Login.CheckIff | internal/web/auth.go:158-163 | a callback gets past verifyState exactly with such a state |
| Login.ClaimIff | internal/web/auth.go:164-169 | in every run a callback gets past takeOauthTx exactly with the cookie of a sign-in stored at most fifteen minutes ago, not taken yet, with the same nonce; the entry is gone either way |
| Login.SignInIff | internal/web/server.go:563-580 | in every run a sign-in is stored exactly if fewer than 1024 are open, for fifteen minutes |
| Login.GateIff | internal/web/home.go:44-77 | gateIdentity admits exactly: under an allowlist a verified listed address not pinned to another subject, which it pins; without one anybody if a Unix password follows or the subject is linked, else a verified address |
| Login.OnlyTheAdmitted | internal/web/auth.go:184-211 | in every run whoever got a session was admitted by its own gate step under the configuration of that moment |
| Login.LoginSucceeds | internal/web/auth.go:142-211 | a callback with a genuine state, an open transaction of the same nonce and an admitted identity ends in a session for that identity |
| Login.FirstLogin | internal/web/auth.go:142-211 | a run from the empty table to such a session |
| Login.OneSubjectPerAddress | internal/web/home.go:44-61 | all sessions made for one address under an allowlist have one (issuer, sub) |
| Listeners.TargetIDInjective | internal/bind/manager.go:46-48 | the id determines the target, for every target the parser can produce, an interface name with "|" included |
| Listeners.Resolve | internal/bind/manager.go:54-87 | wanted ids and kept specs are those of the resolutions; an unresolvable CIDR on a start is fatal; the first fatal or remembered error is returned |
| Listeners.Manager.CloseStale | internal/bind/manager.go:92-104 | in any order, exactly the ids neither wanted nor kept are closed |
| Listeners.Manager.OpenFallback | internal/bind/manager.go:121-138 | opens exactly the addresses that can be listened on and are not open, and says whether any of them listens |
| Listeners.Manager.Handle | internal/bind/manager.go:107-148 | one wanted id: right ones keep their socket, others are reopened or replaced by the device's addresses |
| Listeners.Manager.OpenWanted | internal/bind/manager.go:107-148 | the whole loop, in any order |
| Listeners.Manager.Reconcile | internal/bind/manager.go:89-148 | in any iteration order the outcome is the order-free specification; exactly the sockets of listeners not left alone are closed, and their ids run on new ones; nothing is opened or closed when nothing is to do |
| Listeners.Manager.Sync | internal/bind/manager.go:53-160 | the same for the plan the specs resolve to; a fatal CIDR changes nothing; an error exactly if nothing listens, and which: the first spec that could not be resolved, else a failed listen, else that nothing was wanted |
| Listeners.SyncMeans | internal/bind/manager.go:89-148 | what is open after it, in plain terms: a wanted id is HTTPS exactly with TLS on anything but a Unix socket, and keeps its socket exactly if it ran in that mode; any other id is open exactly if its spec is kept or it stands for a device that could not be bound |
| Listeners.WantedIff | internal/bind/manager.go:60-86 | an id is wanted exactly if some spec resolved to it, and the last such spec owns it |
| Listeners.KeptIff | internal/bind/manager.go:63-68 | a spec's listeners are kept exactly on a reload that finds it not ready or its CIDR unresolvable |
| Listeners.FatalIff | internal/bind/manager.go:74-76 | Sync stops before it changes anything exactly on a start with an unresolvable CIDR, the first one |
| Listeners.ReportedIff | internal/bind/manager.go:150-159 | which error is returned when nothing listens, in plain terms |
| Listeners.Confluent | internal/bind/manager.go:92-148 | any two iteration orders end with the same ids and HTTPS flags |
| Listeners.ConfluentSpecs | internal/bind/manager.go:107-148 | they record the same specs too, except for an id that only fallbacks of different specs open |
| Listeners.CoveredIsPlain | internal/bind/manager.go:128-138 | a fallback that overlaps a wanted target agrees with it |
| Listeners.RepeatIsQuiet | internal/bind/manager.go:92-148 | repeating a Sync that had no failure or fallback has nothing to do |
| Listeners.SurvivalIff | internal/bind/manager.go:92-104 | an old listener outside the plan keeps its socket exactly if its spec is kept, and is then unchanged; otherwise its id is open exactly if a fallback opens it |
| Put.CubbyRoot.MkdirExistOK | cmd/bootstash/put.go:440-456 | succeeds exactly if the name is plain, the parent is a directory and no file is in the way |
| Put.CubbyRoot.MkdirAll | cmd/bootstash/put.go:419-438 | makes the way exactly if nothing on it is a file, and changes nothing else |
| Put.CubbyRoot.CopyFile | cmd/bootstash/put.go:376-386 | the file at its place, directories on the way |
| Put.CubbyRoot.CopyDir | cmd/bootstash/put.go:388-409 | the directory and its entries laid over what was there |
| Put.CubbyRoot.CopyInto | cmd/bootstash/put.go:353-374 | succeeds exactly if nothing is of the wrong kind, then the cubby is the source laid over the old tree; in any case only missing directories on the way change outside the target, and from the target down every path shows its old entry or the source's |
| Put.FitsIff | cmd/bootstash/put.go:353-409 | a put fits exactly if no file stands on the way and every node of the source is a file or directory with a plain name whose place is not taken by the other kind |
| Put.SourceAtIs | cmd/bootstash/put.go:353-409 | what is laid over a path is the node the source has there |
| Put.OverlayOneMore | cmd/bootstash/put.go:398-407 | each further entry extends the overlay by that entry |
| Put.PartWayOneMore | cmd/bootstash/put.go:398-407 | a directory copy that stops inside one entry leaves every path below the target with its old entry or the source's |
| Put.RefusesSelfCopyIff | cmd/bootstash/put.go:332-351 | refused exactly if the destination is or lies inside the source, "/" aside, for paths of any entry names |
| Put.CubbyRoot.Mkdir | internal/jail/jail.go:132-142 | when a directory is made, when it exists already and when it is refused |
| Put.CubbyRoot.ReplaceFile | internal/jail/jail.go:86-124 | the effect of a replace: refused on a directory, a missing parent or a name that is not plain |
| PutOnTree.ParentOnTree | internal/jail/jail.go:331-346 | on a still tree without symlinks parentOf succeeds exactly when Put's parent condition holds, with the entry that condition speaks of |
| PutOnTree.LinkedMirrors | internal/jail/jail.go:132-142 | changing one directory entry of the tree changes exactly that path of the map |
| PutOnTree.MkdirOnTree | internal/jail/jail.go:132-142 | parentOf and mkdirat do to the tree what Put's Mkdir does to the map |
| PutOnTree.ReplaceOnTree | internal/jail/jail.go:86-124 | parentOf and the tree a successful Disk.Replace leaves are what Put's ReplaceFile does to the map, and both refuse exactly the same directories |
| Repair.FileModeBits | internal/web/auth.go:454-458 | group read, group execute with the owner's, nothing for others, owner and group-write bits kept, special bits dropped |
| Repair.FixedTwice | internal/web/auth.go:395-463 | a repaired tree is a fixed point |
| Repair.DirsAndRegsIff | internal/web/auth.go:395-432 | the inodes repaired are exactly those of the directories and regular files found below |
| Repair.RepairMeans | internal/web/auth.go:434-463 | 02770 on every directory found, the owner's bits with group read and nothing for others on every regular file, the rest untouched |
| Repair.Inodes.Fchmod | internal/osutil/chmod.go:26-42 | no call when the bits are right |
| Repair.Inodes.FixNode | internal/web/auth.go:434-463 | a directory or regular file gets its mode, any other kind is left alone |
| Repair.Inodes.FixChildren | internal/web/auth.go:395-432 | every directory below gets 02770, every regular file its file mode, all else is untouched, and a repaired tree costs no call |
| Repair.Inodes.FixBelow | internal/web/auth.go:426-429 | the same for a node with everything below it |
| Titler.TitleAddsThreeLines | internal/web/files.go:723-739 | nothing if the profile carries a title, else exactly these three lines in front, whatever path and profile contain |
| Titler.TitleKeepsBody | internal/web/files.go:723-739 | the profile is a suffix of the result |
| Titler.TitleKeepsMeaning | internal/web/files.go:700-721 | remote host and display name do not change |
| Titler.TitleIdempotent | internal/web/files.go:723-726 | titling twice is titling once |
| Titler.DisplayNameSafe | internal/web/files.go:676-721 | a title holds only label characters and brackets |
| Titler.DisplayNameIs | internal/web/files.go:676-721 | a title is the label of the path without its extension, behind the remote host in brackets if there is another one |
| Titler.HostOfLineIff | internal/web/files.go:700-712 | a line names a host exactly if it reads remote, in any case, space, a word; and then that word cleaned |
| Titler.IsSpaceIff | internal/web/files.go:702-706 | the white space between words is that of Unicode, character by character |
| Titler.LabelCharIff | internal/web/files.go:687-698 | a label keeps exactly letters, digits, space, dot, underscore and hyphen |
| Titler.FirstHostIs | internal/web/files.go:700-712 | the host of a profile is that of its first such line, or none |
| Cubbies.CubbiesAreSeparate | internal/web/files.go:105-120 | two sessions share a cubby path exactly with the same Unix user or, both without one, the same normalised address |
| Cubbies.UsersAndHomeDisjoint | internal/web/files.go:113-119 | users/ and home/ never name the same directory |
| Cubbies.CubbyIff | internal/web/files.go:105-120 | which path a session has, and exactly when: a token user name, or no required password, a well-formed and listed address and an existing directory |
| Cubbies.CubbyIsOneName | internal/web/files.go:105-120 | every cubby is one plain name below users/ or home/ |

## Left out

- Listeners.Manager.Sync: does not fix which spec is recorded for an id that only fallbacks of different specs open, because the code records whichever comes first; it is one of theirs, and all other specs are determined (Listeners.ConfluentSpecs).
- Put.CubbyRoot.CopyInto: works on a symlink-free cubby, as a map from paths to entries, that nothing else changes meanwhile; modes, hard links and read errors of the source are left out.
- Put.CubbyRoot.Mkdir: its effect on the map is derived from parentOf and one new directory entry on a symlink-free still tree (PutOnTree.MkdirOnTree); a failed system call is not modelled.
- Put.CubbyRoot.ReplaceFile: one step here; PutOnTree.ReplaceOnTree ties that step to the tree a successful Replace.Disk.Replace leaves, on a symlink-free still tree.
- Replace.Disk.Replace: no other process changes the directory between its calls.
- Physical.JailAgreesWithPhysical: asks that every name a ".." cancels be a directory, in every relative link of the tree and not only in those on the way; where a ".." cancels a symlink the two may still happen to agree.
- Jail.FollowLink: a link text longer than one read buffer is not cut.
- Jail.Resolve: close-on-exec, truncation and the mode of a created file are left out.
- Login.TransactionsAreUsedOnce: the provider's exchange, and with it the check of the PKCE verifier (section 4 of RFC 7636), is an arbitrary answer.
- Redemption.TicketAccounting: a request counts as served when it reaches the attachment; the sentinel file and file errors can still refuse it.
- Titler.TitleAddsThreeLines: a profile is a sequence of characters, so bytes that are no UTF-8 count as one character each.
- Repair.Inodes.FixChildren: ownership, failed calls and the confinement check of paths are left out.
- Cubbies.CubbiesAreSeparate: address normalisation and the hash are parameters.
- Failed writes of the store, and the state a SaveLinkedSession that failed half-way leaves behind.
- Sessions written by SaveSession and links written by SetLink, which only tests call.
- Layered configuration, allowlist parsing, listen specifications and interface enumeration: easy members or foreign calls.
- HTTP handling, cookies, CSRF, templates, listing, uploads, MIME types, logging, PAM, the setuid helper, systemd, packaging.
- Jail operations Remove, Stat, Chown and ReadDirNames, which add nothing to resolve and parentOf.
