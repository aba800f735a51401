# Trusted-time lifecycle: a Dafny model

This project models the native trusted-time lifecycle code and the build tooling around it, and proves
properties of the model. One module stands for one component.

| module | component |
|---|---|
| `SeccompFilter` | the classic-BPF interpreter, the syscall-selector worklist and the build's sweep of 1024 numbers |
| `Base64`, `AuthorityParsers`, `AuthorityDocuments` | the canonical parser of signed manifests and selections, as functions of the bytes not yet read, each with a printer |
| `AuthorityCursor` | the same parser as the source writes it: an object with an offset that its methods advance |
| `AuthorityChain` | the selection chain, the manifest chain, the directory inventory and role authentication |
| `AuthorityPublication` | which directories authenticate, described by their files without any walk |
| `Sha256` | the streaming hash and its reference, sections 5.1.1 and 6.2 of FIPS 180-4 |
| `ForkGuard` | the fork guard as interleaved atomic steps of many threads in many processes |
| `Endpoint` | the two handshake endpoints over FIFO channels, with deadlines and burn |
| `SignerGate` | the JSON scanner in front of the signer, and the signing domains |
| `InstallTransaction` | tree validation, staging, verified copy, publication by rename, and cleanup |
| `BoundedProcess` | capture, feeding, the poll loop and the cleanup of a child process |
| `ContainerId` | the search for a container id |
| `Bytes` | bytes, optional results, little-endian integers |

## How the model is built

- Code that changes things step by step is a method, a loop or a class, proved against a function or a
  predicate; the theorems are lemmas about those. The fork guard and the endpoints are state machines whose
  steps are the atomic operations and the system calls of the source; their theorems range over every run.
- The operating system is an oracle. Clock readings, readiness, kernel failures, the bytes a read returns and
  the length of a write are parameters or functions of the call number, and every theorem holds for all of them.
- The hash and the signature check are parameters of the chain proofs. Nothing is assumed of the signature
  check. Of the hash, `HeadCommits` assumes only that no two files of the two directories at hand collide.
- Integers are unbounded. The 32-bit `nr` field is encoded modulo 2^32, SHA-256 words are 32-bit vectors, and
  the 64-bit length limit of SHA-256 is written out. The fork guard's counters are assumed not to wrap.
- `Sha256.LoadWord` and `Sha256.StoreWord` write shifts and ors of disjoint bytes as sums and quotients.
- The `hide` statements in proofs only keep definitions out of the solver's way.

Two findings:

- The selector analysis labels a load at offset 1, 2 or 3 an argument although the word overlaps the `nr`
  field. `StraddlingLoadBreaks` gives, for each of the three offsets, an accepted filter with no selector and
  no mask that treats two numbers differently; `SafeOffsetsExact` shows that these three offsets are exactly
  the unsafe ones.
- A sender that misses its deadline after `sendmsg` burns with its packet already on the wire.
  `LateSendLags` is such a run. `LagExact` says exactly when a closed endpoint's counters lag: they miss the
  packet that was on its way through when the socket closed, and nothing else; on one call, `Endpoint.Send`
  misses its packet if and only if the packet went out and the clock reading after it failed or was late.

## Model

| member | source | states |
|---|---|---|
| SeccompFilter.Interpret | build_support/trusted_time_v2_seccomp_manifests.py:485-503 | the interpreter loop returns what the forward-only run returns, and its step-bound failure is never reached |
| SeccompFilter.EvaluateClassicBpf | build_support/trusted_time_v2_seccomp_manifests.py:462-503 | each malformed input gets its own error, in the source's order, and every other input the verdict of the run |
| SeccompFilter.Propagate | build_support/trusted_time_v2_seccomp_manifests.py:447-454 | sending labels to one target keeps every other instruction pending or settled and, if it changes anything, shrinks the set of unset pairs |
| SeccompFilter.Visit | build_support/trusted_time_v2_seccomp_manifests.py:431-454 | one popped instruction is settled or is itself at fault for the reported error |
| SeccompFilter.FindOrigins | build_support/trusted_time_v2_seccomp_manifests.py:428-454 | the worklist ends; it succeeds if and only if every reachable instruction is sound, and then its labels equal those of a single forward pass |
| SeccompFilter.SettledContainsReference | build_support/trusted_time_v2_seccomp_manifests.py:428-454 | a map in which every instruction has settled contains every label of the forward pass |
| SeccompFilter.UnsetShrinks | build_support/trusted_time_v2_seccomp_manifests.py:450-454 | a new label strictly shrinks the worklist's measure |
| SeccompFilter.SyscallSelectors | build_support/trusted_time_v2_seccomp_manifests.py:424-459 | accepts exactly the well-formed accepted programs, lists their selectors in order, and otherwise names an error some reachable instruction is at fault for |
| SeccompFilter.LabelExact | build_support/trusted_time_v2_seccomp_manifests.py:437-439 | a load ignores the number if and only if its offset is at least 4, so its label is right if and only if the offset is not 1, 2 or 3 |
| SeccompFilter.LabelsSound | build_support/trusted_time_v2_seccomp_manifests.py:424-503 | at every instruction of every run the true origin of the accumulator is among the computed labels, and the label says what the accumulator holds |
| SeccompFilter.AcceptedNeverEscapes | build_support/trusted_time_v2_seccomp_manifests.py:424-503 | an accepted program never escapes or meets an unsupported opcode, on any data |
| SeccompFilter.LockstepStep | build_support/trusted_time_v2_seccomp_manifests.py:485-503 | two machines that differ only in the number they hold stay so, or stop with the same result |
| SeccompFilter.SmallModel | build_support/trusted_time_v2_seccomp_manifests.py:424-503 | two undeclared numbers that agree on every mask the number is tested with get the same verdict, for every architecture and all arguments |
| SeccompFilter.StraddlingLoadBreaks | build_support/trusted_time_v2_seccomp_manifests.py:437-439 | for each offset 1 to 3, an accepted filter with no selector and no mask gives two numbers different verdicts |
| SeccompFilter.SafeOffsetsExact | build_support/trusted_time_v2_seccomp_manifests.py:424-503 | the small-model theorem holds of all filters that load from given offsets if and only if none of the offsets is 1, 2 or 3 |
| SeccompFilter.SweepNumbers | build_support/trusted_time_v2_seccomp_manifests.py:540-550 | the loop over 1024 numbers passes if and only if every undeclared one below 1024 gets EPERM |
| SeccompFilter.PhaseDocument | build_support/trusted_time_v2_seccomp_manifests.py:506-559 | a phase is issued if and only if the selectors are the policy's, both probes are killed and the sweep passes |
| SeccompFilter.SweepExtends | build_support/trusted_time_v2_seccomp_manifests.py:540-550 | with masks that have no bit below 1024, the sweep decides every undeclared number disjoint from them |
| SeccompFilter.X32ProbeExtends | build_support/trusted_time_v2_seccomp_manifests.py:530-538 | the x32 probe decides every undeclared number that meets the same masks |
| Base64.GroupRoundTrip | native/trusted_time_v2_authority.c:757-811 | decoding an encoded group of one, two or three bytes gives the group back |
| Base64.GroupCanonical | native/trusted_time_v2_authority.c:757-811 | an accepted group of four characters is the encoding of what it decodes to: padding in place and pad bits zero |
| Base64.DecodeEncode | native/trusted_time_v2_authority.c:757-811 | decoding inverts encoding at every length |
| Base64.EncodeDecode | native/trusted_time_v2_authority.c:757-811 | encoding inverts decoding: whatever is accepted is the one padded encoding of section 4 of RFC 4648, zero pad bits as in section 3.5 |
| Base64.DecodeInjective | native/trusted_time_v2_authority.c:757-811 | no two strings decode to the same bytes |
| Base64.DecodeConsumes | native/trusted_time_v2_authority.c:757-811 | an accepted value of n bytes takes exactly four characters for every three bytes begun |
| AuthorityParsers.IdentifierPrinted | native/trusted_time_v2_authority.c:628-671 | every valid identifier is read back from its quoted form |
| AuthorityParsers.ParseIdentifier | native/trusted_time_v2_authority.c:642-671 | whatever is accepted is the quoted form of an identifier that fits its buffer |
| AuthorityParsers.HexSound | native/trusted_time_v2_authority.c:684-734 | accepted digests are the lower-case hexadecimal form of the bytes read |
| AuthorityParsers.HexPrinted | native/trusted_time_v2_authority.c:684-734 | the hexadecimal form of any bytes is read back |
| AuthorityParsers.OptionalDigestPrinted | native/trusted_time_v2_authority.c:696-734 | a digest or null is read back |
| AuthorityParsers.ParseNumber | native/trusted_time_v2_authority.c:813-852 | whatever is accepted is the decimal form, without leading zeros, of a number from 1 to 99999999 |
| AuthorityParsers.NumberPrinted | native/trusted_time_v2_authority.c:813-852 | every such number is read back |
| AuthorityParsers.OptionalNumberPrinted | native/trusted_time_v2_authority.c:813-852 | a number or null is read back |
| AuthorityDocuments.ReadManifest | native/trusted_time_v2_authority.c:902-1000 | an accepted manifest is byte for byte the printed form of its fields |
| AuthorityDocuments.ManifestPrinted | native/trusted_time_v2_authority.c:902-1000 | parsing the printed form of any well-formed manifest recovers its fields |
| AuthorityDocuments.UnsignedManifestInjective | native/trusted_time_v2_authority.c:854-1045 | two manifests with equal signature-excised bytes agree on every field but the signature |
| AuthorityDocuments.ReadSelection | native/trusted_time_v2_authority.c:1058-1151 | an accepted selection is byte for byte the printed form of its fields |
| AuthorityDocuments.SelectionPrinted | native/trusted_time_v2_authority.c:1058-1151 | parsing the printed form of any well-formed selection recovers its fields |
| AuthorityDocuments.UnsignedSelectionInjective | native/trusted_time_v2_authority.c:854-1175 | two selections with equal signature-excised bytes agree on every field but the signature |
| AuthorityDocuments.CutManifest | native/trusted_time_v2_authority.c:854-900 | cutting the signature field out of the bytes of a manifest prints the manifest without it |
| AuthorityDocuments.CutSelection | native/trusted_time_v2_authority.c:854-900 | the same for a selection |
| AuthorityCursor.Cursor.Expect | native/trusted_time_v2_authority.c:614-626 | advances over the literal if and only if it comes next, and otherwise fails |
| AuthorityCursor.Cursor.ParseIdentifier | native/trusted_time_v2_authority.c:642-671 | the loop accepts, reads and leaves what the identifier parser does |
| AuthorityCursor.Cursor.ParseHex | native/trusted_time_v2_authority.c:696-734 | the loop over digit pairs accepts, reads and leaves what the digest parser does |
| AuthorityCursor.Cursor.ParseNumber | native/trusted_time_v2_authority.c:813-852 | the digit loop with its overflow test accepts, reads and leaves what the number parser does |
| AuthorityCursor.Cursor.DecodeGroups | native/trusted_time_v2_authority.c:757-811 | the group loop accepts, reads and leaves what the base64 decoder does |
| AuthorityCursor.Cursor.ReadManifestHead | native/trusted_time_v2_authority.c:902-966 | the fields up to the signature, in their one order |
| AuthorityCursor.Cursor.ReadSelectionHead | native/trusted_time_v2_authority.c:1058-1136 | the fields up to the signature, in their one order |
| AuthorityCursor.ReadManifest | native/trusted_time_v2_authority.c:902-1000 | the cursor run reads the same manifest as the parser function and cuts out exactly the signature field |
| AuthorityCursor.ParseManifest | native/trusted_time_v2_authority.c:902-1045 | the three-way verdict: malformed or inadmissible, wrongly signed, accepted |
| AuthorityCursor.ReadSelection | native/trusted_time_v2_authority.c:1058-1151 | the cursor run reads the same selection as the parser function and cuts out exactly the signature field |
| AuthorityCursor.ParseSelection | native/trusted_time_v2_authority.c:1058-1175 | the three-way verdict for selections |
| AuthorityChain.ChainNameInjective | native/trusted_time_v2_authority.c:1193-1215 | file names of different numbers differ, whatever the digests |
| AuthorityChain.LoadAndParseSelection | native/trusted_time_v2_authority.c:1193-1240 | loads a selection if and only if the file has the name, the hash, the signature and the sequence asked for |
| AuthorityChain.LoadAndParseManifest | native/trusted_time_v2_authority.c:1242-1285 | the same for a manifest and its generation |
| AuthorityChain.LoadSelectionChain | native/trusted_time_v2_authority.c:1809-1833 | the downward loop from the head equals the recursive chain of predecessor digests |
| AuthorityChain.DigestWasSelected | native/trusted_time_v2_authority.c:1316-1331 | finds a digest if and only if it is among those selected |
| AuthorityChain.ValidateSelectionChain | native/trusted_time_v2_authority.c:1351-1416 | accepts exactly the chains valid at every position, and lists the selected digests in order |
| AuthorityChain.GenerationsConsecutive | native/trusted_time_v2_authority.c:1351-1416 | in a valid chain the selected generations are 1, 2, ..., m without gaps |
| AuthorityChain.RecoveryWasSelected | native/trusted_time_v2_authority.c:1316-1416 | a recovery digest was selected at its own selection or an earlier one |
| AuthorityChain.ManifestReusedKey | native/trusted_time_v2_authority.c:1430-1476 | reports reuse if and only if some role id or key of the candidate equals one of an earlier manifest, across roles |
| AuthorityChain.LoadManifestChain | native/trusted_time_v2_authority.c:1478-1533 | the upward loop accepts exactly the chains in which each manifest extends those before it |
| AuthorityChain.LoadedManifestChain | native/trusted_time_v2_authority.c:1478-1533 | every loaded manifest is well formed, admissible, of its generation, and has the selected digest |
| AuthorityChain.KeysFresh | native/trusted_time_v2_authority.c:995-1036 | all 3m role ids and all 3m role keys of a chain are pairwise distinct and none is the root's |
| AuthorityChain.ExpectedAuthorityName | native/trusted_time_v2_authority.c:1554-1602 | accepts a name if and only if it is the root key, the head, or the file of a selection or manifest |
| AuthorityChain.ScanAuthorityDirectory | native/trusted_time_v2_authority.c:1604-1744 | passes if and only if every entry is expected and their number is right |
| AuthorityChain.ExpectedNamesDistinct | native/trusted_time_v2_authority.c:1554-1602 | the expected names are pairwise distinct |
| AuthorityChain.InventoryExact | native/trusted_time_v2_authority.c:1604-1744 | that test passes if and only if the entries are exactly the expected names |
| AuthorityChain.LoadWholeChain | native/trusted_time_v2_authority.c:1746-1860 | root, head, selections and manifests are loaded in order or nothing is |
| AuthorityChain.AuthenticateDirectory | native/trusted_time_v2_authority.c:1746-1939 | the generation and key a role gets, or none |
| AuthorityChain.AuthenticatedChain | native/trusted_time_v2_authority.c:1746-1939 | whatever authenticates has consecutive generations with one manifest each, every manifest linked to the one before it, keys never reused, and a directory of exactly the chain's files |
| AuthorityChain.AuthenticatedWasSelected | native/trusted_time_v2_authority.c:1746-1939 | the key a role gets belongs to a manifest that one selection selected together with its generation: the head for host and supervisor, the named one for recovery |
| AuthorityChain.SelectionsAgree | native/trusted_time_v2_authority.c:1193-1240 | equal digests lead to equal selections in equal files, all the way down |
| AuthorityChain.ManifestsAgree | native/trusted_time_v2_authority.c:1478-1533 | and to equal manifests in equal files, all the way up |
| AuthorityChain.HeadCommits | native/trusted_time_v2_authority.c:1746-1939 | two directories with the same selection.json that both authenticate give every role the same generation and key, and hold the same files with the same bytes |
| AuthorityPublication.ManifestFits | native/trusted_time_v2_authority.c:1242-1285 | the bound on the file size refuses no well-formed manifest |
| AuthorityPublication.SelectionFits | native/trusted_time_v2_authority.c:1193-1240 | nor any well-formed selection |
| AuthorityPublication.SelectionLoads | native/trusted_time_v2_authority.c:1193-1240 | a selection loads if and only if the file its number and digest name prints it and it is proper and signed |
| AuthorityPublication.ManifestLoads | native/trusted_time_v2_authority.c:1242-1285 | the same for a manifest |
| AuthorityPublication.ChainLoads | native/trusted_time_v2_authority.c:1746-1860 | a directory with the files of a valid chain loads that chain |
| AuthorityPublication.ChainHeld | native/trusted_time_v2_authority.c:1746-1860 | and whatever loads is a valid chain printed in the directory's files |
| AuthorityPublication.PublishesOne | native/trusted_time_v2_authority.c:1746-1860 | a directory publishes at most one chain |
| AuthorityPublication.AuthenticatesExactly | native/trusted_time_v2_authority.c:1746-1939 | a role gets a generation and key if and only if the directory is exactly the files of some valid chain that grants them |
| AuthorityPublication.FirstGenerationAuthenticates | native/trusted_time_v2_authority.c:1746-1939 | any signed first manifest and first selection of it make a directory in which host and supervisor authenticate |
| AuthorityPublication.SomeDirectoryAuthenticates | native/trusted_time_v2_authority.c:1746-1939 | there is such a directory, with no collisions, so the theorems above are not empty |
| Sha256.BigEndianValue | native/trusted_time_v2_authority.c:350-353 | the length field holds the length |
| Sha256.PadInjective | native/trusted_time_v2_authority.c:335-359 | below 2^64 bits no two messages have the same padded form |
| Sha256.PadsOneBlock | native/trusted_time_v2_authority.c:335-354 | with at most 55 bytes left over the padding completes one block |
| Sha256.PadsTwoBlocks | native/trusted_time_v2_authority.c:343-354 | with 56 to 63 it completes that block and adds another |
| Sha256.LoadWordBigEndian | native/trusted_time_v2_authority.c:194-201 | a loaded word is the big-endian value of its bytes |
| Sha256.StoreWordBigEndian | native/trusted_time_v2_authority.c:203-210 | a stored word is its big-endian bytes |
| Sha256.ExpandBlock | native/trusted_time_v2_authority.c:243-255 | the 64 words equal the recursive message schedule of section 6.2.2 of FIPS 180-4 |
| Sha256.Context.Transform | native/trusted_time_v2_authority.c:212-291 | the state becomes the compression of section 6.2.2 of FIPS 180-4 |
| Sha256.Context.Update | native/trusted_time_v2_authority.c:307-333 | the message grows by exactly the payload, or, if and only if it would reach 2^64 bits, nothing changes |
| Sha256.Context.Finish | native/trusted_time_v2_authority.c:335-359 | the digest is that of the padded message, and the context is wiped |
| Sha256.HashChunks | native/trusted_time_v2_authority.c:293-359 | for every split into updates the digest is that of the concatenation |
| Sha256.HashOnce | native/trusted_time_v2_authority.c:361-377 | the one-shot form gives the same digest, and refuses exactly the messages of 2^64 bits or more |
| ForkGuard.LockKept | native/trusted_time_v2_fork_guard.c:38-89 | every step keeps: one holder, the generation odd while a mutation is in flight, and even while the lock is free or its holder is not mutating |
| ForkGuard.EvenGenerationKeepsTable | native/trusted_time_v2_fork_guard.c:300-406 | the generation never falls, and while it is even no step outside the child hook changes the table |
| ForkGuard.TableKept | native/trusted_time_v2_fork_guard.c:300-406 | every step keeps descriptors distinct and what a thread inside the lock has learned about the table |
| ForkGuard.ForkKept | native/trusted_time_v2_fork_guard.c:91-166 | every step keeps: the count equals the threads in a fork, and while unpoisoned at most one has entered and the prepare variables are its own |
| ForkGuard.ChildKept | native/trusted_time_v2_fork_guard.c:168-186 | every step keeps the child hook's progress through the inherited table |
| ForkGuard.NextInv | native/trusted_time_v2_fork_guard.c:38-406 | every step of any thread, thread creation, fork and failed fork keeps all of these in every process |
| ForkGuard.PoisonStays | native/trusted_time_v2_fork_guard.c:91-186 | poison never clears |
| ForkGuard.ChildSealed | native/trusted_time_v2_fork_guard.c:168-186 | every forked process, once its hook is done, is poisoned with an empty table and has closed exactly what it inherited |
| ForkGuard.RegisteredOnce | native/trusted_time_v2_fork_guard.c:168-186 | closing the registered descriptors closes each once |
| ForkGuard.ForkSafety | native/trusted_time_v2_fork_guard.c:91-166 | if a parent hook ends unpoisoned, no mutation was in flight and the table stood still from the generation noted in prepare until the parent hook compared it, and the child was forked with that table |
| ForkGuard.ForkSafetyInChild | native/trusted_time_v2_fork_guard.c:91-186 | then, whenever the child's hook is done, it has closed exactly the descriptors registered at prepare |
| ForkGuard.LoneForkPasses | native/trusted_time_v2_fork_guard.c:91-166 | a run in which a lone thread forks and its parent hook ends unpoisoned, so fork safety is not empty |
| ForkGuard.CheckExact | native/trusted_time_v2_fork_guard.c:128-158 | the parent hook poisons a clean guard if and only if the noted generation was odd, has moved, or another fork is under way |
| ForkGuard.SubtractNeverUnderflows | native/trusted_time_v2_fork_guard.c:159-165 | the count is positive whenever a parent hook takes itself off it |
| ForkGuard.TableDistinct | native/trusted_time_v2_fork_guard.c:300-357 | registered descriptors are pairwise distinct in every reachable state |
| ForkGuard.IdentityExact | native/trusted_time_v2_fork_guard.c:263-298 | with the poison flag and the epoch loaded in separate steps at capture and at check: an identity is accepted exactly from its own thread of its own process while unpoisoned, never in a child |
| Endpoint.IoDeadline | native/trusted_time_graceful_stop_v2_endpoint.c:476-505 | the outer deadline changes at most once; a transfer's deadline is at most two seconds away and no later than the handshake or outer deadline |
| Endpoint.StepKeeps | native/trusted_time_graceful_stop_v2_endpoint.c:649-777 | every step of an endpoint keeps its state, counters, deadlines, socket and transfer history consistent |
| Endpoint.NextInv | native/trusted_time_graceful_stop_v2_endpoint.c:649-777 | every interleaved step keeps this for both endpoints, and both channels in order |
| Endpoint.SessionAgreement | native/trusted_time_graceful_stop_v2_endpoint.c:950-1563 | in every run the k-th packet taken is the k-th packet emitted and was emitted by the matching method |
| Endpoint.CountersTrue | native/trusted_time_graceful_stop_v2_endpoint.c:649-777 | an unburned endpoint's counters are the true counts; a burned one's lag by at most one packet in all |
| Endpoint.LagExact | native/trusted_time_graceful_stop_v2_endpoint.c:649-777 | for every closed endpoint of every run: its send counter misses a packet if and only if it closed with a packet sent and not yet counted, and its receive counter if and only if it closed with, or by, a packet taken and not counted |
| Endpoint.LateSendLags | native/trusted_time_graceful_stop_v2_endpoint.c:692-700 | a run in which the host has burned with no packet counted and one on the wire |
| Endpoint.TerminalMeansSession | native/trusted_time_graceful_stop_v2_endpoint.c:1070-1101 | a host that received its terminal packet: the supervisor took its hello, confirmation and request, and emitted one hello and one terminal packet, which the host took |
| Endpoint.SessionCompletes | native/trusted_time_graceful_stop_v2_endpoint.c:950-1563 | there is a run in which both endpoints complete the whole session |
| Endpoint.WithinTakersLimit | native/trusted_time_graceful_stop_v2_endpoint.h:11-18 | the size limits of matching methods agree: in every run no packet of the peer exceeds the limit of the method that takes it |
| Endpoint.RunSettled | native/trusted_time_graceful_stop_v2_endpoint.c:298-327 | once an endpoint has closed its socket it never transfers again, and deadlines once set never move, over every run |
| Endpoint.DeadlinesHold | native/trusted_time_graceful_stop_v2_endpoint.c:476-777 | every success came before its handshake or outer deadline, and the socket is closed exactly once |
| Endpoint.CallAtomic | native/trusted_time_graceful_stop_v2_endpoint.c:950-1563 | over every run, from entry to return: a call that returns with the socket open has moved exactly one packet, by its own method, and counted it; one that returns with it closed has counted nothing and kept the state |
| Endpoint.Endpoint.BurnBy | native/trusted_time_graceful_stop_v2_endpoint.c:298-327 | only the owner burns; the socket is closed if it was open |
| Endpoint.Endpoint.FindDeadline | native/trusted_time_graceful_stop_v2_endpoint.c:476-505 | binds and computes what the deadline function says |
| Endpoint.Endpoint.Send | native/trusted_time_graceful_stop_v2_endpoint.c:950-977 | a non-owner call changes nothing; an owner's call leaves the state its steps lead to; the counter advances exactly on success, and the packet is out uncounted if and only if the clock after it failed or was late |
| Endpoint.Endpoint.Receive | native/trusted_time_graceful_stop_v2_endpoint.c:979-1008 | the same for receiving, with the exact condition for a packet taken in vain; output only on success |
| Endpoint.SendCallSteps | native/trusted_time_graceful_stop_v2_endpoint.c:649-702 | an uninterrupted send, burned at entry or not, is a run of the interleaved step relation |
| Endpoint.ReceiveCallSteps | native/trusted_time_graceful_stop_v2_endpoint.c:704-777 | an uninterrupted receive, burned at entry or not, is a run of the interleaved step relation |
| SignerGate.ScanString | native/trusted_time_graceful_stop_v2_signer.c:743-790 | the loop accepts and ends where the string grammar does |
| SignerGate.ScanNest | native/trusted_time_graceful_stop_v2_signer.c:806-843 | the loop with its array of 64 closers accepts and ends where the recursive nesting does |
| SignerGate.ScanPrimitive | native/trusted_time_graceful_stop_v2_signer.c:844-858 | the loop takes a non-empty run of the primitive alphabet up to a comma, a brace or the end |
| SignerGate.ScanValue | native/trusted_time_graceful_stop_v2_signer.c:792-862 | the three kinds of value together |
| SignerGate.TextSkipped | native/trusted_time_graceful_stop_v2_signer.c:743-790 | every printed JSON string is passed over exactly |
| SignerGate.NestSkips | native/trusted_time_graceful_stop_v2_signer.c:806-843 | inside a container every printed value is passed over exactly, unless its depth exceeds the stack |
| SignerGate.ValueSkipped | native/trusted_time_graceful_stop_v2_signer.c:792-862 | a printed top-level value ends where it was printed to end, if and only if it is at most 64 deep |
| SignerGate.FieldsFound | native/trusted_time_graceful_stop_v2_signer.c:883-936 | the fields scanned are the members printed |
| SignerGate.CountAndFlag | native/trusted_time_graceful_stop_v2_signer.c:917-939 | a count of one and one flag decide that there is exactly one matching field and that it is exact |
| SignerGate.HasExactUniqueTopLevelField | native/trusted_time_graceful_stop_v2_signer.c:864-940 | on any bytes the scan accepts if and only if exactly one scanned field has the key, unescaped, and that field has the value |
| SignerGate.ScannerCorrect | native/trusted_time_graceful_stop_v2_signer.c:743-940 | on every compact JSON object and line feed it accepts if and only if no member is over 64 deep and one member matches, whatever is nested |
| SignerGate.SignDomain | native/trusted_time_graceful_stop_v2_signer.c:942-995 | something is signed if and only if the owner asks and every rule accepts; it is domain, zero byte, message |
| SignerGate.RulesConflict | native/trusted_time_graceful_stop_v2_signer.c:864-940 | no byte string satisfies two rules that ask one key for different values |
| SignerGate.GatesExclusive | native/trusted_time_graceful_stop_v2_signer.c:1640-1787 | no byte string, well formed or not, passes the gates of two signing methods of any role |
| SignerGate.DomainsSeparate | native/trusted_time_graceful_stop_v2_signer.c:975-986 | signature inputs of zero-free domains determine domain and message |
| SignerGate.SignedInputsDistinct | native/trusted_time_graceful_stop_v2_signer.c:1640-1787 | what is signed determines the signing method and the message |
| InstallTransaction.Walk | build_support/install_native_admission_launcher.py:865-922 | the recursive walk accepts if and only if every entry below is recorded and matches, and sees each exactly once |
| InstallTransaction.ValidateTree | build_support/install_native_admission_launcher.py:844-929 | accepts exactly the trees equal to the manifest records |
| InstallTransaction.ValidatedRecordsClosed | build_support/install_native_admission_launcher.py:844-929 | the records of an accepted tree are parent-closed |
| InstallTransaction.SortByDepth | build_support/install_native_admission_launcher.py:1325-1328 | an ordering of the same paths, none before a shallower one |
| InstallTransaction.ParentComesFirst | build_support/install_native_admission_launcher.py:1325-1330 | in depth order the parent of every directory comes before it |
| InstallTransaction.Disk.MakeDirectories | build_support/install_native_admission_launcher.py:1325-1330 | every mkdir finds its parent and a free name; the stage then holds exactly the recorded directories |
| InstallTransaction.Disk.WriteChunk | build_support/install_native_admission_launcher.py:1162-1168 | the whole chunk is appended however few bytes each write takes |
| InstallTransaction.Disk.CopyFile | build_support/install_native_admission_launcher.py:1116-1186 | what is read is what is staged, and is kept only with the recorded size and hash |
| InstallTransaction.Disk.CopyFiles | build_support/install_native_admission_launcher.py:1331-1336 | every copy finds its parent; the stage then holds exactly the records |
| InstallTransaction.Disk.Finalize | build_support/install_native_admission_launcher.py:1189-1214 | the stage then equals the records, owners and modes included |
| InstallTransaction.Disk.Publish | build_support/install_native_admission_launcher.py:1217-1270 | the rename binds a free destination name to the stage, or changes nothing |
| InstallTransaction.Disk.RemoveTree | build_support/install_native_admission_launcher.py:1273-1291 | ends; on success the directory and everything below it is gone and nothing else |
| InstallTransaction.Disk.Install | build_support/install_native_admission_launcher.py:1304-1366 | whatever fails, the destination name is only ever bound to what it was or to a tree equal to the records, over a log that always holds the current binding; unless cleanup fails no stage remains; and without faults a faithful candidate is published |
| InstallTransaction.UnchangedIsFaithful | build_support/install_native_admission_launcher.py:1116-1186 | a candidate that still reads as validated is copied faithfully |
| InstallTransaction.InstallValidated | build_support/install_native_admission_launcher.py:1396-1411 | an inexact candidate installs nothing, and verification accepts whatever was published |
| BoundedProcess.Drain | native/bounded_process.c:695-737 | a drain keeps at most the room left, keeps everything it received unless that would not fit, and ends because the measure is the room |
| BoundedProcess.DrainReceives | native/bounded_process.c:695-737 | it receives exactly what the kernel delivered |
| BoundedProcess.Capture.ReadCapture | native/bounded_process.c:695-737 | the loop over a fixed buffer does what a drain does, and the buffer holds all bytes delivered until it overflows |
| BoundedProcess.Transaction.CloseOnce | native/bounded_process.c:531-540 | every descriptor stays accounted for: owned, closed once, or never opened |
| BoundedProcess.Transaction.WriteStdin | native/bounded_process.c:739-775 | the child is fed a growing prefix of the payload |
| BoundedProcess.Transaction.Turn | native/bounded_process.c:1078-1197 | one turn of the loop; it is done only when the child has exited and both outputs have ended |
| BoundedProcess.Transaction.PollLoop | native/bounded_process.c:1078-1197 | the loop ends by the round in which the clock reaches the deadline; it is cut short by a signal or by the clock if and only if the last round it executed saw that, and no earlier round did; normally it ends only with both ends read |
| BoundedProcess.Transaction.KillGroup | native/bounded_process.c:808-813 | kill is repeated while interrupted and no longer; cleanup fails if and only if the last call failed other than by finding no process |
| BoundedProcess.Transaction.ReapChild | native/bounded_process.c:858-863 | waitpid is repeated while interrupted and no longer; exactly one call returned the child, or none did and cleanup failed |
| BoundedProcess.Transaction.Run | native/bounded_process.c:1005-1258 | unless it stops the process: each descriptor closed exactly once, and of all waitpid calls exactly one returned a spawned child; completion returns exactly the bytes both outputs delivered, within the caps |
| ContainerId.WindowsApart | native/trusted_time_graceful_stop_v2_resources.c:1173-1212 | two delimited windows never overlap or touch |
| ContainerId.ExtractUnique | native/trusted_time_graceful_stop_v2_resources.c:1173-1212 | the search that jumps returns an id, none or a conflict exactly as the set of all delimited windows has one content, none or several |

## Left out

- Ed25519 and the strength of SHA-256: the signature check is a parameter, and collision freedom is a stated
  hypothesis about the files at hand.
- File metadata of the authority directory, the raw directory record parsing before a name is known, and the
  descriptors authentication holds while it reads.
- Memory orders weaker than sequential consistency, wrap-around of the fork guard's counters, the guard's
  initialisation, and `fcntl` failures before a registration takes the lock.
- SeccompFilter.PhaseDocument: the receipt's digest and policy listing are not part of the result.
- Endpoint: connecting and accepting, socket identity checks (one flag of a call), partial sends that a
  sequenced-packet socket does not make, and every liveness claim.
- SignerGate: secret memory, credentials and owner resources; one flag says whether the caller is the owner.
- InstallTransaction: paths are component sequences; symbolic links and other special files are one kind of
  node; permissions do not restrict the installer; outside interference and durability of `fsync`.
- InstallTransaction.SortByDepth: does not model the second sort key, the path bytes; the proofs hold for any
  order of equally deep paths.
- InstallTransaction.InstallValidated: the final verification reuses the loaded records; it does not reload the
  receipt, the manifests or the external runtime.
- BoundedProcess: argument and environment preparation, the Python objects of the result, `SIGPIPE` masking
  (one flag), and the second `kill` made on Apple systems only. Signals are taken to
  interrupt one `kill` or `waitpid` only finitely often.
- `aqt_parse_u64`, `aqt_option_set_is_exact` and the other proc text parsers: they would only add easy members.
- The build, qualification and receipt scripts, and the launcher that embeds Python.
