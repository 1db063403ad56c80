# A model of the VPN enrolment server and its route script

The repository runs a self-hosted WireGuard server. Its enrolment service (Go, `stacks/enrol`)
adds and removes peers in `gw0.conf`, keeps the users of the identity provider, walks the operator
through setup, rotates client secrets, and runs backups; a script computes which addresses a client
should route through the tunnel. This project models the parts of it that decide something, and
proves what they promise.

- **Route complement** (`Cidr`, `Canonical`, `Collapse`, `Complement`): `0.0.0.0/0` minus a list of
  IPv4 blocks (section 3.1 of RFC 4632), with bodies for `collapse_addresses`, `address_exclude`,
  `overlaps` and `subnet_of`. The result is the unique, shortest list of blocks.
- **Rewriting client files** (`RouteRewrite`): the awk pass that puts that list into client configs.
- **The peer config** (`ConfLines`, `PeerConf`, `PeerParams`, `PeerEdit`, `PeerLaws`, `PeerComment`,
  `CommentForm`, `Rfc3339`): parser, appender, the two removers, and the comment reader with its time,
  over the file's text; the regular expressions are matched exactly.
- **Allocation and the handlers** (`PeerOctets`, `PeerListing`, `PeerTidy`, `PeerServer`, `PeerRemoval`,
  `PeerNaming`, `NameClash`, `PeerNames`, `DeviceTag`): the lowest free address, the listed names, and add, delete and
  bulk removal as steps under the server's mutex, over whole runs.
- **Backup operations** (`OpLog`, `OpTracker`): the log with its live subscribers and the registry
  with its in-flight flag and janitor, as interleaved atomic steps.
- **Setup** (`Finalize`, `LinePump`): the resumable finalize pipeline under arbitrary failures, and
  the splitter of subprocess output.
- **Secrets** (`EnvFile`, `SecretRotation`, `Base64`, `PasswordHash`): the env-file reader and editor,
  the rotation that may stop around its two writes, and the two hash-string formats.
- **Users** (`UsersDb`): the ordered node list with its map, and the in-place sort.

`Text` holds the string functions of the Go library that several of these use; `Wrappers` holds
`Option` and `Result`; `Sequences` a shared predicate. Objects that the program updates in place are classes whose methods are tied
to a function of the old state; laws over runs are proved about that function.

Some promises of the code or its comments hold only under a condition. The project follows the code and
proves when it meets them:

- `AgreesIffDistinct`: the user map follows the node list for ever exactly if no name is in the file twice.
- `SettableIff`: a variable set in the env file reads back exactly for keys without a newline, a
  leading blank or a leading `export `.
- `LastListWins` and `RewriteTwice`: the script calls itself idempotent (`scripts/update-route-tables.sh:24`).
  A later pass replaces an earlier one exactly when no marker line follows another, unless the current
  AllowedIPs line comes next, because the pass prints the line it fetched without looking at it.
  `RewriteServes`: on the same files every marker is followed by the list just written. `DoubledMarkerGrows`
  is a file on which all this fails.
- `SuccessLeaves` and `DeletedStaysGone`: a comment (`stacks/enrol/setup.go:1199-1202`) describes recovery by
  removing the sentinel and walking through setup again. A recorded sentinel flag makes every later
  run skip the step that creates the file; `RecoveryLeavesNoSentinel` is a run that succeeds without one.
- `IdempotentIff`: normalising a device name twice changes nothing exactly if the name shows no white space
  at its ends once white space, and then separators, are taken off; `NotIdempotent` gives a name that does.
- `AddWithoutStore`: a comment (`stacks/enrol/server.go:1492-1498`) says an add goes on when the sidecar cannot be
  read. The listing before it asks the missing store about every peer, so a valid add goes on exactly if
  the config has no peer; `HeaderPanics` shows a config of one line that ends in the panic.
- `ScanParamsIff`: a comment (`stacks/enrol/users.go:264-265`) says the parameter scan rejects malformed input.
  It accepts exactly the three literals, each with blanks and a run of digits in range after it, whatever
  follows that is no digit; `MalformedAccepted` has a blank, a leading zero and trailing text.
- `RemovedOwners`: a user's devices are told by the prefix of their names (`stacks/enrol/server.go:1122-1127`).
  A bulk removal takes another user's recorded device exactly if a hyphen in a user name or a tag makes
  one name begin like the other; among user names without hyphens it takes only the user's own.
- `CutNamesIff`: cutting a peer also cuts the comment above the next one. The listed names still differ after
  a removal exactly if they do when each peer left has its sidecar record's name or, failing that, the
  name in the last line kept above it, if that is a comment. `TidyRunKeepsNames`: over whole runs they
  stay different if at the start each line that names a peer stands directly above a header, as the
  program writes them; `DeleteClashes` is a config without that, and a delete that makes two names one.

## Model

| member | source | states |
|---|---|---|
| Cidr.Masked | scripts/update-route-tables.sh:95 | a non-strict network contains the address it was given, at that prefix length |
| Cidr.MaskedBits | scripts/update-route-tables.sh:95 | its prefix is the address with the host bits cut off |
| Cidr.HalvesCover | scripts/update-route-tables.sh:110 | the two subnets of a block cover it exactly, side by side, and have it as supernet |
| Cidr.Laminar | scripts/update-route-tables.sh:106-109 | two blocks are nested or disjoint |
| Cidr.OverlapsIff | scripts/update-route-tables.sh:106-109 | the end-point test for overlap holds iff an address is shared, iff one block is inside the other |
| Canonical.OneBlockCovers | scripts/update-route-tables.sh:119 | in a canonical set a covered block lies inside a single member |
| Canonical.Unique | scripts/update-route-tables.sh:119 | two canonical sets of the same addresses are the same set |
| Canonical.Shortest | scripts/update-route-tables.sh:119 | no list covering the same addresses is shorter than the canonical set |
| Canonical.SortedUnique | scripts/update-route-tables.sh:119 | a sorted list is determined by its elements |
| Collapse.SortedBlocks | scripts/update-route-tables.sh:119 | sorts a set of blocks by address, then prefix length |
| Collapse.CollapseAddresses | scripts/update-route-tables.sh:99-100 | for every list, a sorted canonical list of the same addresses |
| Collapse.Subsume | scripts/update-route-tables.sh:99-100 | the second pass drops contained blocks and keeps every address |
| Collapse.AddressExclude | scripts/update-route-tables.sh:110 | disjoint pieces of the block cover exactly its addresses outside the other; one piece per prefix bit between them |
| Complement.PartialOverlapUnreachable | scripts/update-route-tables.sh:109-116 | an exclusion that meets a remaining block lies inside it, so the defensive branch is never taken |
| Complement.HolderExists | scripts/update-route-tables.sh:105-110 | an exclusion that meets no earlier one lies inside exactly one remaining block |
| Complement.Exclude | scripts/update-route-tables.sh:103-117 | one outer pass removes exactly the excluded addresses, keeps the blocks disjoint, and adds at most 31 blocks |
| Complement.ExcludeAll | scripts/update-route-tables.sh:102-117 | all passes together leave exactly the addresses no exclusion covers, in at most 1 + 31n blocks |
| Complement.RemainderCanonical | scripts/update-route-tables.sh:102-119 | what remains has no overlap and no two sibling blocks already before the final collapse |
| Complement.OnlyReordered | scripts/update-route-tables.sh:119 | the final collapse keeps the very same blocks |
| Complement.ComputeComplement | scripts/update-route-tables.sh:99-120 | the output is sorted and canonical, covers an address iff no input block does, and has at most 1 + 31n blocks |
| Complement.OnlyAddressesMatter | scripts/update-route-tables.sh:99-120 | inputs for the same addresses give the same output, whatever their order, overlap or repetition |
| Complement.ComplementShortest | scripts/update-route-tables.sh:119-120 | no list of blocks for the complement is shorter |
| Complement.ComplementTwice | scripts/update-route-tables.sh:99-120 | complementing twice gives the collapsed input |
| Complement.ComplementOrdered | scripts/update-route-tables.sh:119 | each output block ends before the next begins |
| Complement.RootSize | scripts/update-route-tables.sh:102 | the starting block holds exactly the 2^32 addresses |
| RouteRewrite.Rewrite | scripts/update-route-tables.sh:156-189 | the awk program computes the rewriting the laws below are about; in a settled file the AllowedIPs setting of the line after every marker reads as the given list |
| RouteRewrite.RewriteKeepsOthers | scripts/update-route-tables.sh:163-188 | every line stays, in order, but the AllowedIPs lines directly after a marker; only those, a missing marker and its blank line are added |
| RouteRewrite.RewriteServes | scripts/update-route-tables.sh:148-189 | after the pass every marker is followed by the current list iff no marker line follows another, unless the current AllowedIPs line comes next |
| RouteRewrite.RewriteReads | scripts/update-route-tables.sh:163-188 | for every printable list and settled file, the config parser reads that list as the AllowedIPs setting of the line after every marker |
| RouteRewrite.IsAllowedIff | scripts/update-route-tables.sh:169-174 | a line is dropped after a marker iff it is blanks, `AllowedIPs`, blanks and an equals sign, then anything |
| RouteRewrite.RewriteTwice | scripts/update-route-tables.sh:151-189 | a second pass changes nothing iff no marker line follows another, unless the current AllowedIPs line comes next |
| RouteRewrite.LastListWins | scripts/update-route-tables.sh:138-189 | for all files and lists, regenerating with a newer list equals regenerating with it at once iff no marker line follows another, unless the newer AllowedIPs line comes next |
| RouteRewrite.DoubledMarkerGrows | scripts/update-route-tables.sh:163-178 | on two marker lines each of two passes adds a line |
| ConfLines.ParseLines | stacks/enrol/peers.go:205-242 | the parser's loop computes the fold that gives the peers and the interface parameters |
| ConfLines.BlockLines | stacks/enrol/peers.go:205-242 | a line belongs to a block iff it lies between the block's recorded start and end |
| ConfLines.DropTheorem | stacks/enrol/peers.go:331-362 | dropping whole blocks and lines that set nothing leaves exactly the other peers, in order, each with the comment of the last line kept before its header, and the parameters |
| ConfLines.HeirUnlessExposed | stacks/enrol/peers.go:342-352 | a kept peer keeps its comment unless the block directly before it is cut |
| ConfLines.MarksDropBlocks | stacks/enrol/peers.go:336-353 | the lines cut around the blocks are whole blocks and lines that set nothing |
| ConfLines.AppendParse | stacks/enrol/peers.go:280-293 | the lines of an appended block parse to the old peers followed by the new one with its comment |
| PeerConf.LoadConf | stacks/enrol/peers.go:198-243 | parsing a text gives the peers and parameters of its classified lines, which the laws below tie to the text |
| PeerParams.SettingIff | stacks/enrol/peers.go:193-194 | a setting's expression matches, with that capture, iff the line is blanks, name, blanks, `=`, blanks, the value without blank ends (or the last of only blanks), blanks |
| PeerParams.AnySettingIff | stacks/enrol/peers.go:195 | the same for any name of letters and digits that begins with a letter: name and value are captured in that order |
| PeerParams.SectionNameIff | stacks/enrol/peers.go:192 | a header is a bracketed word and blanks, and names its section in lower case |
| PeerParams.ParamsExact | stacks/enrol/peers.go:224-227 | a name is a parameter iff some line under an `[Interface]` header sets it, and has the value of the last such line |
| PeerParams.ParamsOfText | stacks/enrol/peers.go:198-243 | for every text of an `[Interface]` header and printed settings, each name has the value of its last line and no other name has one |
| PeerParams.PeerOfText | stacks/enrol/peers.go:198-243 | a text of a `[Peer]` header, a printed `PublicKey` and a printed `AllowedIPs` parses to one peer with these |
| PeerParams.CommentAbove | stacks/enrol/peers.go:216-221 | a peer takes the `#` line directly above its header as its comment |
| PeerConf.MarkedNeutral | stacks/enrol/peers.go:191-243 | a `# peer:` line or a blank line never matches a header or a setting |
| PeerEdit.MarkLines | stacks/enrol/peers.go:336-353 | the marked lines are exactly those from each block's cut point to its end |
| PeerEdit.KeepLines | stacks/enrol/peers.go:354-360 | the kept lines are those not marked, in order |
| PeerEdit.RemovePeersByPubkeys | stacks/enrol/peers.go:331-362 | cuts the blocks of exactly the named keys; the empty set leaves the text alone |
| PeerEdit.RemovePeerByPubkey | stacks/enrol/peers.go:296-320 | cuts the first block with the key; absent without one |
| PeerEdit.CutStretch | stacks/enrol/peers.go:306-319 | the single remover's slice equals cutting that one block by marks |
| PeerEdit.CutTheorem | stacks/enrol/peers.go:296-362 | parsing after a cut gives exactly the other peers, each with the comment it then finds, and the same parameters |
| PeerLaws.BulkTheorem | stacks/enrol/peers.go:331-362 | for every text, parsing after the bulk removal gives the peers with the keys filtered out and the same parameters |
| PeerLaws.OneTheorem | stacks/enrol/peers.go:296-320 | with distinct keys the single removal filters out its key |
| PeerLaws.EachTheorem | stacks/enrol/peers.go:296-320 | with distinct keys, removing keys one by one with a parse between gives the filtered list |
| PeerLaws.AnyOrderIsBulk | stacks/enrol/peers.go:296-362 | every order of single removals leaves the peers that one bulk removal leaves |
| PeerLaws.AppendedLines | stacks/enrol/peers.go:280-293 | the file after an append is its old lines followed by the six of the block |
| PeerLaws.SanitizeShape | stacks/enrol/peers.go:581-592 | sanitising keeps the first 256 characters, line breaks turned to spaces |
| PeerLaws.AppendTheorem | stacks/enrol/peers.go:198-293 | parsing after an append gives the old peers with keys, addresses and comments, then the new one; parameters stay |
| PeerLaws.AppendThenRemove | stacks/enrol/peers.go:280-320 | removing a freshly appended peer restores every file its key was absent from, but for one final newline |
| PeerComment.CommentRoundTrip | stacks/enrol/peers.go:286-289 | the written comment is read back: name, actor, and the time to the second |
| PeerComment.CommentRead | stacks/enrol/peers.go:404-422 | the expression, with its greedy repetitions, captures the three fields of a well-formed comment |
| PeerComment.OwnName | stacks/enrol/peers.go:404-422 | whatever the actor is, the written comment is read with the peer's own name or not at all |
| CommentForm.MatchIff | stacks/enrol/peers.go:404-422 | a comment is matched iff it has the expression's form; what is captured spells the comment, and the name is the longest that does |
| Rfc3339.FormatRead | stacks/enrol/peers.go:288 | every printed UTC time is parsed back to the second |
| Rfc3339.ReadFormat | stacks/enrol/peers.go:413-417 | a text of the printed form that is read as a time is what that time prints |
| Rfc3339.PartsRead | stacks/enrol/peers.go:288 | the printed time has year, month, day, hour, minute and second as digits in their places |
| Rfc3339.YearLength | stacks/enrol/peers.go:413-417 | the dates that exist make years of 365 days, 366 in leap years |
| PeerOctets.CollectOctets | stacks/enrol/peers.go:247-266 | collects the octet of every address element in the subnet |
| PeerOctets.UsedIff | stacks/enrol/peers.go:247-266 | an octet is used iff an element of some peer's address list names it |
| PeerOctets.PickFreeOctet | stacks/enrol/peers.go:269-277 | the least free octet in [start, 254]; none iff all are used |
| PeerOctets.LowestUnique | stacks/enrol/peers.go:269-277 | that answer is determined by the set of used octets |
| PeerOctets.AddressOctet | stacks/enrol/peers.go:247-266 | an address as it is written into the config is read back as its octet and no other |
| PeerOctets.SubnetPrefixPlain | stacks/enrol/peers.go:594-604 | the subnet prefix meets the assumptions of the laws on addresses |
| PeerOctets.SubnetPrefixParts | stacks/enrol/peers.go:594-604 | the prefix spells the subnet's three leading bytes in order |
| PeerListing.ListPeers | stacks/enrol/peers.go:371-395 | lists every peer under its record's or its comment's name, or panics at the first when there is no store |
| PeerListing.FirstByAddress | stacks/enrol/server.go:1719-1725 | finds a peer of the name whose address comes first; none iff there is none |
| PeerListing.NamesStay | stacks/enrol/peers.go:371-395 | the names listed after a removal differ iff those its peers will have differ |
| PeerServer.Server.AddPeer | stacks/enrol/server.go:1439-1501 | refused without change, or the lowest free address is appended and recorded |
| PeerServer.AddWithoutStore | stacks/enrol/server.go:1459-1498 | without a store a valid add goes on iff the config has no peer, and panics iff it has one |
| PeerServer.HeaderPanics | stacks/enrol/server.go:1459-1498 | a config of one header line is one that panics |
| PeerServer.Server.DeletePeer | stacks/enrol/server.go:1705-1741 | the peer of the name that is first by address goes, from config and sidecar, or nothing changes |
| PeerServer.Server.RemoveUserPeers | stacks/enrol/server.go:1112-1159 | the peers with the collected keys go in one rewrite, and of their records those whose deletion is flushed; the laws below say which these are |
| PeerRemoval.RemovedByName | stacks/enrol/server.go:1122-1141 | with distinct keys the new config holds, in order, exactly the peers whose listed name does not begin with the user's name and a hyphen |
| PeerRemoval.RemovedByKey | stacks/enrol/server.go:1122-1141 | for every config a key stays iff it was there and no peer with it is listed under the user's prefix |
| PeerRemoval.RemoveReachesAdded | stacks/enrol/server.go:1112-1159 | after a recorded add for a user, over every run in between with any sidecar failures, removing that user leaves no peer with the added key |
| PeerRemoval.RemovedOwners | stacks/enrol/server.go:1122-1127 | a recorded device of another user goes too iff a hyphen makes one name begin like the other; never when neither user name has a hyphen |
| PeerRemoval.DeletedByName | stacks/enrol/server.go:1705-1741 | a delete that is done takes exactly one peer: of those listed under the name, the one with the least address |
| PeerRemoval.RunKeepsStep | stacks/enrol/server.go:1439-1501 | while sidecar writes succeed, over every run the sidecar records exactly the keys of the config |
| PeerRemoval.AddSucceedsIff | stacks/enrol/server.go:1439-1501 | an add succeeds iff both names are valid, the user exists, the store opens or the config has no peer, no device is listed under the name, and an octet up to 254 is free; otherwise nothing changes |
| PeerRemoval.AddedCommentReads | stacks/enrol/server.go:1479-1491 | the comment of the peer added is read back as the device's name, the actor and the time to the second |
| PeerRemoval.AddedAddress | stacks/enrol/peers.go:371-395 | a device added by the handler is listed with the address it was given |
| PeerNames.ValidIff | stacks/enrol/peers.go:564-577 | the two patterns for user names and tags, character by character |
| Text.LeqIff | stacks/enrol/server.go:1719-1725 | one address comes before another iff it is a prefix or smaller at the first difference |
| PeerServer.AddExtends | stacks/enrol/server.go:1468-1491 | an add extends the parsed list by the new key and an octet that was free while all lower ones were used |
| PeerServer.StepKeepsApart | stacks/enrol/server.go:1439-1501 | every step keeps keys and octets pairwise distinct |
| PeerNaming.CutNamesIff | stacks/enrol/peers.go:296-362 | after a removal the listed names differ iff they do with, for each peer left, its record's name or that in the last line kept above it, if that is a comment |
| PeerNaming.SafeWillDiffer | stacks/enrol/peers.go:296-362 | they do if every peer left has a record, keeps the block before it, or finds a line above it that names nobody |
| PeerNaming.StepKeepsNames | stacks/enrol/server.go:1459-1501 | an add, and a removal under that guard, keep all listed names distinct, where any number of peers may have none |
| PeerServer.RunKeepsApart | stacks/enrol/server.go:1439-1501 | over every run of adds, deletes and user removals with any sidecar failure, keys and octets stay distinct |
| PeerNaming.RunKeepsNames | stacks/enrol/server.go:1459-1501 | over every run whose removals meet the guard, listed names stay distinct |
| PeerNaming.RecordedRunKeepsNames | stacks/enrol/server.go:1459-1501 | from a config with a record for every peer, over every run whose adds are recorded, listed names stay distinct |
| PeerNaming.TidyRunKeepsNames | stacks/enrol/server.go:1112-1159 | from a config whose naming lines stand directly above headers, over every run with any sidecar failures, listed names stay distinct and the config stays so |
| PeerTidy.CutKeepsTidy | stacks/enrol/peers.go:296-362 | a removal leaves every naming line directly above a header |
| PeerTidy.AppendKeepsTidy | stacks/enrol/peers.go:280-293 | so does an append |
| PeerTidy.TidyIsSafe | stacks/enrol/peers.go:296-362 | in such a config a peer that loses its comment finds nobody else's name |
| NameClash.DeleteClashes | stacks/enrol/peers.go:296-320 | a config with distinct listed names on which a delete leaves two peers under one name |
| PeerNaming.AddKeepsListed | stacks/enrol/server.go:1459-1501 | an add keeps all listed names apart, those known only from comments included, whatever becomes of its record |
| PeerServer.AddFullIff | stacks/enrol/server.go:1473-1477 | an add fails for lack of space iff every octet from start to 254 is used |
| DeviceTag.NormalizeDeviceTag | stacks/enrol/peers.go:72-85 | the collapse loop ends and computes the one-pass collapse of hyphen runs |
| DeviceTag.NormalizedWords | stacks/enrol/peers.go:72-85 | the result is the trimmed name's words, after lower-casing and mapping, joined by single hyphens |
| DeviceTag.CutsAt | stacks/enrol/peers.go:75-80 | blanks, underscores, dots and hyphens end a word; other ASCII characters only change case |
| DeviceTag.ReplaceShrinks | stacks/enrol/peers.go:81-83 | a replacement pass shortens any text with a double hyphen |
| DeviceTag.NormalizedShape | stacks/enrol/peers.go:67-85 | the result has no double hyphen, none at its ends, and no character the mapping would change |
| DeviceTag.FixedPointIff | stacks/enrol/peers.go:72-85 | the result is a fixed point iff it has no white space at its ends |
| DeviceTag.IdempotentIff | stacks/enrol/peers.go:72-85 | normalising twice equals once iff the input shows no white space at its ends after white space, then separators, are taken off |
| DeviceTag.AcceptedIsFixed | stacks/enrol/peers.go:570-577 | a result the validator accepts is a fixed point |
| DeviceTag.NotIdempotent | stacks/enrol/peers.go:72-85 | a name on which normalising twice differs from once |
| UsersDb.UsersDB.constructor | stacks/enrol/users.go:69-106 | loading indexes the pairs in order, a later one winning |
| UsersDb.IndexLast | stacks/enrol/users.go:69-106 | of several pairs of one name the map has the last |
| UsersDb.UsersDB.Upsert | stacks/enrol/users.go:122-148 | refused iff the name is invalid; otherwise the first pair of the name is replaced or one appended, in list and map |
| UsersDb.UsersDB.Remove | stacks/enrol/users.go:151-164 | fails iff the name is absent; otherwise the first pair goes, from list and map |
| UsersDb.UsersDB.ListSorted | stacks/enrol/users.go:109-119 | the map's names, each once, sorted |
| UsersDb.SortStrings | stacks/enrol/users.go:308-315 | sorts in place, a permutation |
| UsersDb.RunAgrees | stacks/enrol/users.go:122-164 | with distinct names, every run keeps map and node list in agreement |
| UsersDb.AgreesIffDistinct | stacks/enrol/users.go:69-164 | they agree after every run iff the file names no user twice |
| UsersDb.OthersKeepOrder | stacks/enrol/users.go:122-164 | over every sequence of operations the users none of them names keep their nodes and their order |
| UsersDb.UpdateKeepsPosition | stacks/enrol/users.go:122-148 | an update stays at its position |
| UsersDb.NewComesLast | stacks/enrol/users.go:122-148 | a new user comes after all old pairs, which keep their positions |
| OpLog.BackupOp.AppendLocked | stacks/enrol/backup.go:309-314 | the locked part of an append is one step of the interleaving |
| OpLog.BackupOp.SendNext | stacks/enrol/backup.go:315-322 | one non-blocking send is one step; a full channel drops the frame |
| OpLog.BackupOp.TakeSnapshot | stacks/enrol/backup.go:327-334 | returns the log so far and registers an empty channel |
| OpLog.BackupOp.Drop | stacks/enrol/backup.go:337-347 | filters the subscriber list inside its own array |
| OpLog.BackupOp.Take | stacks/enrol/backup.go:1776-1783 | a reader takes the oldest frame of its channel |
| OpLog.StepKeeps | stacks/enrol/backup.go:309-347 | every step keeps histories prefixes of the log and channels faithful to what follows |
| OpLog.EverySubscriber | stacks/enrol/backup.go:309-347 | under every interleaving of any number of appenders: the history is a prefix of the log; the channel carries only frames after it, none twice, each appender's in order |
| OpLog.NothingAfterUnsubscribe | stacks/enrol/backup.go:337-347 | after an unsubscribe, in every continuation, no frame logged later enters the channel |
| OpLog.StaysSubscribed | stacks/enrol/backup.go:337-347 | over every run a subscriber stays until its own unsubscribe |
| OpLog.SnapshotSubscribes | stacks/enrol/backup.go:327-334 | a snapshot returns the whole log and registers the new channel, still empty |
| OpLog.DroppedWhenFull | stacks/enrol/backup.go:315-322 | a frame is dropped only by a send to a channel with 32 waiting |
| OpLog.RunAccounts | stacks/enrol/backup.go:309-347 | for a current subscriber every later frame has entered its channel, was dropped, or is on its way |
| OpLog.MissingIsDropped | stacks/enrol/backup.go:315-322 | once sends are done, the missing frames are exactly those dropped |
| OpLog.OneAppenderInOrder | stacks/enrol/backup.go:309-323 | with one appender the channel is in log order |
| OpLog.OneAppenderSees | stacks/enrol/backup.go:309-347 | with one appender and sends done, history, taken and waiting frames together are the log iff none was dropped |
| OpLog.TwoAppendersReorder | stacks/enrol/backup.go:836-861 | for any two frames some run of two appenders, as the two output pumps are, delivers them against the log's order |
| OpTracker.Backups.TryAcquire | stacks/enrol/backup.go:432-446 | succeeds iff the flag was clear, and then the thread holds it |
| OpTracker.Backups.TryRegister | stacks/enrol/backup.go:372-379 | registers under the id unless the janitor holds the lock |
| OpTracker.Backups.FinishOp | stacks/enrol/backup.go:351-357 | marks the operation done, now |
| OpTracker.Backups.ReleaseFlag | stacks/enrol/backup.go:440-444 | clears the flag and ends the thread's hold |
| OpTracker.Backups.Current | stacks/enrol/backup.go:389-398 | a registered operation that is not done; none iff all are done |
| OpTracker.Backups.Sweep | stacks/enrol/backup.go:400-418 | an undisturbed sweep evicts exactly the operations done before the cutoff |
| OpTracker.Backups.VisitNext | stacks/enrol/backup.go:406-415 | one visit of the janitor is one step of the interleaving |
| OpTracker.StepKeeps | stacks/enrol/backup.go:1359-1402 | every step keeps one holder for the flag and ties each unfinished operation to the thread running it |
| OpTracker.AtMostOne | stacks/enrol/backup.go:420-446 | in every interleaving the flag is set iff exactly one thread holds it, and two registered operations not done are the same |
| OpTracker.EvictedLate | stacks/enrol/backup.go:400-418 | an entry leaves only when done for longer than the grace period, or when a new operation draws the id of a done one |
| OpTracker.StaysVisible | stacks/enrol/backup.go:359-362 | however long it runs, an operation can be found until 30 seconds after it is done, while no other draws its id |
| OpTracker.DoneBetween | stacks/enrol/backup.go:351-357 | the recorded end of an operation lies between any moment it was open and any moment it was done |
| OpTracker.FoundForGrace | stacks/enrol/backup.go:359-418 | a registered operation seen open is found for at least 30 seconds after, whatever happens, while no other draws its id |
| OpTracker.VisitEvicts | stacks/enrol/backup.go:400-418 | a janitor that wakes evicts, on its visit, what was done more than 30 seconds before |
| Finalize.Server.DoStep | stacks/enrol/setup.go:1054-1153 | one guarded step: worker, verification, flag, and a save whose failure is only logged, as the function the laws below are about |
| Finalize.Server.VerifyAll | stacks/enrol/finalize_verify.go:290-304 | the verifications in order, up to the first failure |
| Finalize.Server.RunFinalize | stacks/enrol/setup.go:1043-1218 | a run, with every call's outcome given, is the function the laws below are about |
| Finalize.FlagsArePrefix | stacks/enrol/setup.go:1043-1218 | over any runs with any failures, wizard saves and deletions, the saved flags are a prefix of the steps |
| Finalize.SentinelIsGated | stacks/enrol/setup.go:1155-1191 | the sentinel is touched only directly after all four verifications passed in the same run |
| Finalize.WorkIsNotRepeated | stacks/enrol/setup.go:1024-1028 | while saves after steps succeed, a completed step's worker is never called again |
| Finalize.SuccessLeaves | stacks/enrol/setup.go:1193-1217 | success leaves all flags set and both secrets scrubbed on disk; the sentinel is there iff it was still to be created or nobody had deleted it |
| Finalize.FailureKeepsSecrets | stacks/enrol/setup.go:1061-1064 | a run that fails, wherever it fails, leaves name, password hash and credentials on disk as it found them |
| Finalize.SavedUntilSuccess | stacks/enrol/setup.go:1193-1204 | over every sequence of actions, what was saved stays on disk until a run succeeds or a wizard page saves again |
| Finalize.WizardSaveLasts | stacks/enrol/setup.go:1193-1204 | so does what a wizard page saves, from its save on |
| Finalize.FlagsAreEarned | stacks/enrol/setup.go:1054-1153 | over every sequence of actions, a flag on disk has behind it a completion directly after its worker's call, and a recorded sentinel a touch |
| Finalize.FailureNamesTheFirst | stacks/enrol/setup.go:1043-1218 | the error returned names the first thing that went wrong: loading, the first step or recheck in order that does not pass, the sentinel, or the final save |
| Finalize.FirstStart | stacks/enrol/setup.go:1043-1053 | before anything has run, every assumption of these laws over runs holds |
| Finalize.SuccessStands | stacks/enrol/setup.go:1176-1217 | if nobody ever deletes it, every successful run leaves the sentinel in place |
| Finalize.SentinelStands | stacks/enrol/setup.go:1176-1191 | without deletions, a recorded sentinel flag means the sentinel is there |
| Finalize.RecoveryLeavesNoSentinel | stacks/enrol/setup.go:1176-1217 | with everything recorded and the file deleted, a run in which every call succeeds ends without it |
| Finalize.DeletedStaysGone | stacks/enrol/setup.go:1176-1202 | once its flag is saved, a deleted sentinel never comes back |
| Finalize.SucceedsIff | stacks/enrol/setup.go:1043-1218 | exactly when a run succeeds, whatever the intermediate saves do |
| LinePump.IndexNewline | stacks/enrol/setup.go:1825-1832 | the first newline, or -1 iff there is none |
| LinePump.Drain | stacks/enrol/setup.go:1801-1809 | takes exactly the complete lines out of the buffer |
| LinePump.Pump | stacks/enrol/setup.go:1792-1817 | for every way of cutting the stream, the logged lines are those of the whole stream |
| LinePump.LoggedStrips | stacks/enrol/setup.go:1792-1817 | each logged line is its piece of the stream without the returns at its end; only an empty last piece is not logged |
| LinePump.LoggedRestore | stacks/enrol/setup.go:1792-1817 | without returns in it, the logged lines joined are the stream, up to its final newline |
| EnvFile.ReplaceOrAppendEnvLine | stacks/enrol/oidc.go:308-330 | replaces the first matching line or appends one |
| EnvFile.SameLines | stacks/enrol/oidc.go:282-330 | reader and editor pick the same lines unless the key begins with `export ` |
| EnvFile.Spelled | stacks/enrol/oidc.go:282-304 | the reader accepts blanks around a line and an optional `export `, and returns what is written after the equals sign, unquoted |
| EnvFile.Unquoted | stacks/enrol/oidc.go:282-304 | one pair of matching single or double quotes is taken off, and nothing else |
| EnvFile.EditedLines | stacks/enrol/oidc.go:308-330 | every other line is kept verbatim |
| EnvFile.ReadAfterSet | stacks/enrol/oidc.go:282-330 | for every text, reading a key after setting it gives the value |
| EnvFile.SettableIff | stacks/enrol/oidc.go:282-330 | a key always reads back what was set iff the file format can carry it |
| EnvFile.OthersUntouched | stacks/enrol/oidc.go:282-330 | every other key reads as before |
| EnvFile.SetTwice | stacks/enrol/oidc.go:308-330 | a second identical edit changes nothing |
| SecretRotation.HashShapedIff | stacks/enrol/oidc.go:130-144 | the shape test accepts exactly the strings of the expression's form |
| SecretRotation.ClassesIff | stacks/enrol/oidc.go:130-144 | its two classes, character by character |
| SecretRotation.HashAccepted | stacks/enrol/oidc.go:162-168 | every hash made here has the accepted shape and fits on a line |
| SecretRotation.HashVerifies | stacks/enrol/oidc.go:162-168 | that verifier accepts for every hash made here exactly the secrets that derive the plaintext's key |
| SecretRotation.HashFields | stacks/enrol/oidc.go:162-168 | a hash is `$pbkdf2-sha512$310000$`, the salt and the key of 64 bytes |
| SecretRotation.SecretStore.RotateClientSecret | stacks/enrol/oidc.go:219-277 | one attempt, stopped anywhere around its two writes, is the function the laws below are about |
| SecretRotation.CompletedPairs | stacks/enrol/oidc.go:239-277 | after a due attempt completes, a verifier that splits the stored value and reads its rounds, salt and digest accepts a secret iff it derives the key of the stored plaintext over 310000 rounds and 64 bytes; the plaintext spells the random bytes |
| SecretRotation.QuotedLine | stacks/enrol/oidc.go:268-277 | the line written is `name='hash'` with no quote inside, so that a shell takes its dollars as they are |
| SecretRotation.NothingWritten | stacks/enrol/oidc.go:219-238 | an attempt with an empty argument, beside a hash-shaped value and a non-empty plaintext, or stopped before its writes changes nothing |
| SecretRotation.PlaintextFirst | stacks/enrol/oidc.go:253-277 | one that stops between its writes has written the plaintext file and nothing else |
| SecretRotation.OthersUndisturbed | stacks/enrol/oidc.go:173-202 | rotating one secret changes neither the hash nor the plaintext of another |
| SecretRotation.RunKeepsPairs | stacks/enrol/oidc.go:219-277 | over any run of stopped attempts a hash-shaped value verifies exactly as the stored plaintext does |
| SecretRotation.FromPlaceholder | stacks/enrol/setup.go:1080-1103 | so it is from every value that is not hash-shaped |
| SecretRotation.HealthyIsFinal | stacks/enrol/oidc.go:227-238 | a healthy secret is never changed again |
| SecretRotation.RetryConverges | stacks/enrol/setup.go:1080-1103 | one completed attempt is enough, whatever came before and comes after |
| SecretRotation.ThreeSecrets | stacks/enrol/oidc.go:173-202 | from a fresh install, over every run of attempts on the three secrets, each stays paired and a healthy one never changes |
| Base64.RoundTrip | stacks/enrol/users.go:212-219 | decoding undoes encoding for every byte string |
| Base64.DecodeIff | stacks/enrol/users.go:270-277 | line breaks apart, a text decodes iff it is in the alphabet and no character is left alone; and how many bytes it makes |
| Base64.FourSpellThree | stacks/enrol/oidc.go:126-128 | four characters spell the 24 bits of three bytes, highest first |
| Base64.LastSpells | stacks/enrol/oidc.go:126-128 | a last group spells its bytes with zero bits after them |
| Base64.Alphabet | stacks/enrol/oidc.go:126-128 | which character stands for which six bits (table 1 of RFC 4648) |
| Base64.OidcRoundTrip | stacks/enrol/oidc.go:126-128 | turning `.` back to `+` and decoding undoes the dotted encoding |
| Base64.OidcAlphabet | stacks/enrol/oidc.go:126-128 | the dotted encoding stays within the hash alphabet |
| Base64.OidcInjective | stacks/enrol/oidc.go:126-128 | rewriting `+` to `.` keeps distinct byte strings distinct |
| PasswordHash.ScanParamsIff | stacks/enrol/users.go:262-269 | the scan yields given values iff the text is the three literals, each followed by blanks and digits of that value in range, and then no digit |
| PasswordHash.MalformedAccepted | stacks/enrol/users.go:262-269 | a text with a blank, a leading zero and trailing text that is accepted |
| PasswordHash.VerifyReadsPhc | stacks/enrol/users.go:239-281 | for every string of the printed form the verifier recovers parameters, salt and digest; zero passes, zero lanes or an empty digest panic |
| PasswordHash.MalformedIff | stacks/enrol/users.go:239-276 | a stored hash is called malformed iff it is not `<text>$argon2id$v=<19>$<parameters>$<salt>$<digest>` with readable parts |
| PasswordHash.HashThenVerify | stacks/enrol/users.go:205-281 | against a hash made here, an attempt is accepted iff it is not empty and derives the same key, with 3 passes, 65536 KiB, 4 lanes and 32 bytes |
| Text.SplitJoin | stacks/enrol/peers.go:296-362 | splitting joined lines gives the lines back |
| Text.JoinSplit | stacks/enrol/oidc.go:308-330 | joining split lines gives the text back |
| Text.AtoiDecimal | stacks/enrol/peers.go:247-277 | printing and parsing decimals agree on every 63-bit number |
| Text.AtoiSomeIff | stacks/enrol/peers.go:247-266 | a number is read iff the text is an optional sign and digits, in the range of 64 bits |
| Text.AtoiSigned | stacks/enrol/peers.go:247-266 | and has the value of those digits, negated after a minus |
| Text.PlaceValue | stacks/enrol/peers.go:247-266 | digits are read by place value |

## Left out

- Reading the route list's text: comment lines, blank lines and lines that are no network; the model starts from the parsed blocks.
- Writing networks as text, and the download and caching of the route list.
- Collapse.CollapseAddresses: the library handles single addresses apart, as ranges it summarises; the model merges all blocks the one way, which by `Canonical.Unique` gives the same list.
- RouteRewrite.Rewrite: works on awk's records; the newline awk adds to a last line without one is not modelled.
- PeerConf.LoadConf: expressions are matched line by line before the loop, not inside it; text is valid Unicode.
- PeerLaws.AppendTheorem: key and address are non-empty, start and end without white space and hold no newline, as generated keys and addresses do.
- PeerComment.CommentRoundTrip: the 256 limit counts characters where the program counts bytes. Times in other spellings than the printed one, with an offset or a fraction, are read by a parameter; years have four digits.
- PeerServer.RunKeepsApart: a generated key is assumed new to the file.
- PeerNaming.TidyRunKeepsNames: the key of an add whose record fails is assumed not to be in an old record.
- PeerServer.Server.AddPeer: sidecar records are reduced to their names; a failed read or write of the config, which ends the request without a change, is not modelled; the first address is not negative.
- DeviceTag.NormalizeDeviceTag: the Unicode table behind lower-casing is a parameter with three laws.
- UsersDb.UsersDB.constructor: the node list is a list of pairs; encoding and decoding of one user's record are assumed to undo each other. Names are compared by characters, which orders them as their bytes do.
- OpLog.BackupOp.SendNext: the bookkeeping of positions and dropped frames is the model's own; the program keeps only the frames.
- The event handler's decision to stop when it sees a done operation, which it reads without the lock.
- OpTracker.AtMostOne: only HTTP requests share the flag; a comment (`stacks/enrol/backup.go:421`) includes the command line, which does not take it.
- OpTracker.StaysVisible: the clock never goes back.
- Finalize.Server.RunFinalize: workers, verifications and saves are calls with arbitrary outcomes; state.json is reduced to the flags, the admin's name and hash, and the DNS credentials; runs do not overlap, and a crash inside a run counts as a failure at the next call.
- LinePump.Pump: bytes are modelled as characters; the two pumps of one process are two independent calls.
- SecretRotation.HashVerifies: the identity provider checks secrets; the model has only what it does with the five fields of the stored value.
- SecretRotation.RunKeepsPairs: plaintext files deleted from outside during a run are not modelled.
- PasswordHash.HashThenVerify: the key derivation is a parameter that fills the length it is asked for; random bytes are parameters throughout.
- HTTP forms, pages, sessions, audit entries and QR codes.
- Docker, restic, certbot, the databases and the proxy manager, and the host's installers and units.
- Retention counting, size formatting and the page caches.
