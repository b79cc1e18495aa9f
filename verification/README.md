# jaritanet, modelled and proved in Dafny

Most of jaritanet wires cloud resources together; six parts of it compute something, and what
those compute decides who gets in, where a packet goes and which files survive. These six are
modelled here, as they are written, and proved.

- **Client profiles.** `Profile` is `buildProfile`: the loops as methods, proved equal to the
  value `Compile`. `ProfileTags` says exactly when the outbound tags are distinct;
  `ProfileLeaves` says what each leaf dials;
  `ProfileGraph` and `ProfilePaths` give the outbounds a meaning (what a tag resolves to under a
  setting of every selector and urltest, following detours) and prove that it terminates and
  which paths exist; `ProfileRouting` evaluates the route rules and DNS; `ProfileDialects`
  compares the profiles of different clients and users. `Xray` is the server side and `Gateway`
  puts both ends together. `Profiles` is the table the profiles are served from.
- **Login and consent.** `AuthProtocol` is a step relation over Redis flows, Hydra challenges and
  sessions and any number of handler threads, each call one atomic step. `AuthSafety`,
  `AuthFlows` and `AuthProvenance` are inductive invariants over all runs; `AuthHandlers` has the
  four handlers as methods on a `Provider`, each proved to be a run of the relation.
  `AuthIdentity` holds the allowlist, GitHub's addresses and the session's claims.
- **Version updater.** `Scanner` and `Pins` match the regular expressions character by character,
  and `PinTexts` says which texts are read as what;
  `Versions` is the order on releases and what a prefix does to it; `Updater` is the loop with its
  cache, the working tree and the decisions; `UpdaterPasses` reduces a pass to the values of the
  pins and says what any number of passes do; `UpdaterTemplates` says what a template writes and
  `UpdaterReleases` which release an entry takes and what that leaves in its pin. The
  entries are workable when no value, there or to come, holds a quote or a line that looks like the
  entry of another pin.
- **btrfs maintenance.** `Damage` is the awk program, `KernelLog` the kernel's messages it reads,
  `Retention` the snapshot script.
- **Policy routing.** `TailnetRule` has the kernel's rule table, the loop that repairs it and the
  routes packets take.
- **Roster, ports, publishing.** `Roster`, `Ports` and `Publishing`.

`Prelude`, `Sorting`, `Text` and `Net` are shared vocabulary.

Where a promise turned out to hold only under a condition, the condition is part of the theorem,
as an if-and-only-if, and where it fails a lemma says how:

- The tags of a profile are distinct exactly under `CleanNames`; a hyphen in a node name can break it.
- An `sbr` profile without its XHTTP entries is the `sing-box` profile, except for a single node
  with a single other entry, which has no urltest to go back to.
- `consent_decision` does not look at the allowlist. Nobody outside it is ever accepted exactly
  when Hydra starts out holding no grant and no open consent of such a person.
- A renamed GitHub account gets another no-reply address, although the comment on it says that
  the address survives.
- A value written into a pin reads back exactly when it holds no quote. One with a line of its own
  that looks like another entry can take that other pin with it.
- A live entry's pin is emptied exactly when its value is empty, or is `{version}` any number of
  times over for a release whose tag has no digit, or is `{version}` for a branch made of `$`
  patterns that come to nothing. From the next pass on it counts as a moved config, although the
  comment in `decide` reads an empty value as a path that matches nothing.
- Live entries on one readable pin that want different values make every pass after the first
  rewrite it again, unless one of them empties it: then it is lost and later passes are quiet. A
  dry run does not see such moves coming.
- `compareVersions` orders a list of tags exactly when no three of them form a knot: a word that
  sorts as text between two numerals of which the upper does not make the later tag. Numerals,
  empty parts, and words on one side of all numerals never do. A part such as `1a` can: of `1.9`,
  `1.10` and `1.1a` none is the newest.
- Behind a prefix tags are ordered as their versions are exactly when what its last separator, or
  its start, leaves in front of the number keeps numbers numbers and in order. For digits and plain
  words that means empty or all zeros: `s3-` is harmless, `s3-v` is not.
- A file path with `(path: ` or `unable to fixup` in it is reported wrongly.
- A stray name among the snapshots is left alone, as the comment promises, but a run, or any number
  of them, leaves the newest `keep` exactly when no stray is old enough to be deleted. Once one is,
  every later run fails and nothing at or behind it is deleted again.
- A rule is put back unless its pref is taken by another rule.
- A zone is found for the names under it exactly when its own name has two labels.

## Model

| member | source | states |
|---|---|---|
| Profile.BuildProfile | packages/vpn/src/singbox.ts:217-434 | the nested loops that push outbounds, groups and exits, with DNS and routes, produce the profile value all theorems below are about |
| ProfileTags.SniLabelIff | packages/vpn/src/reality.ts:8-9 | the label of any SNI is the one name without a full stop that it is, or that stands before its first one, a `www.` in front not counted |
| ProfileTags.TagsDistinctIffCleanNames | packages/vpn/src/singbox.ts:83-180 | for every user, node list, exit list and client, the profile's tags are pairwise distinct if and only if the names are clean |
| ProfileTags.PlainNamesAreClean | packages/vpn/src/xray.schemas.ts:39-43 | distinct hyphen-free node names, SNIs of which no two on a node go by one name, distinct ports, and exit names other than `direct` and `select` give a profile of distinct tags |
| ProfileTags.HyphenClash | packages/vpn/src/singbox.ts:109-110 | two nodes that differ, one with a hyphen in its name, whose profile repeats a tag for every user |
| ProfileGraph.OutboundsRanked | packages/vpn/src/singbox.ts:246-321 | every member and detour names a defined outbound of strictly lower rank, so the graph is acyclic |
| ProfileRouting.RoutesDefined | packages/vpn/src/singbox.ts:335-434 | every outbound named by `final`, a route rule or a resolver's detour is defined, clean names or not |
| ProfileRouting.ResolversDefined | packages/vpn/src/singbox.ts:335-409 | every resolver that is named is defined, and the one an XHTTP leaf names needs no tunnel |
| ProfileRouting.SelectorDefault | packages/vpn/src/singbox.ts:175-180 | every selector starts on its first member |
| ProfilePaths.FinalResolves | packages/vpn/src/singbox.ts:262-323 | under every setting of the groups a flow from `final` reaches one entry leaf, with at most one exit in front, in at most six steps |
| ProfilePaths.AxesIndependent | packages/vpn/src/singbox.ts:188-202 | setting the exit picker keeps the entry the flow takes and puts exactly that exit, or none, in front of it |
| ProfilePaths.ReachableIffPath | packages/vpn/src/singbox.ts:188-202 | the paths some setting reaches are exactly entry leaf × (direct or usable exit): all of them and nothing else |
| ProfileLeaves.LeavesDialTheirNodes | packages/vpn/src/singbox.ts:83-156 | every entry leaf dials one of the nodes, over a transport its user may have, with that user's own credential |
| ProfileLeaves.EveryWayHasALeaf | packages/vpn/src/singbox.ts:246-261 | every SNI, hy2 port and CDN entry of every node the user may use has a leaf, called `reality-<node>-<label>`, `hy2-<node>-<port>` or `xhttp-<node>` |
| ProfileLeaves.CandidatesAreWays | packages/vpn/src/singbox.ts:235-244 | the pickers list a node's hy2 ports, the main one first, then its SNIs, then its CDN entry, under those names |
| ProfileLeaves.PickersSpelled | packages/vpn/src/singbox.ts:262-288 | the entry groups by name, member by member, for one node and for several |
| ProfileLeaves.ExitPickersSpelled | packages/vpn/src/singbox.ts:309-323 | the exit groups by name, and where traffic goes that no rule sends elsewhere |
| ProfileLeaves.ExitsBehindTheEntry | packages/vpn/src/singbox.ts:292-307 | an admin's profile has an outbound for each exit, as the exit is configured and behind the entry picker; a guest's has none |
| ProfileRouting.DecideCases | packages/vpn/src/singbox.ts:408-434 | first-match evaluation of the rules, sniffing included, for every packet |
| ProfileRouting.TailnetCrossesNoExit | packages/vpn/src/singbox.ts:408-434 | whatever the pickers show, a tailnet flow that is not DNS reaches one entry leaf and no exit, and other IPv6 never leaves the tun |
| ProfileRouting.QueriesGoTo | packages/vpn/src/singbox.ts:335-376 | which server by name and address answers which query of whom, all of them behind the entry picker |
| ProfileRouting.DnsCrossesNoExit | packages/vpn/src/singbox.ts:335-376 | every query goes to a defined resolver, over one entry leaf and no exit |
| ProfileDialects.SingBoxIgnoresXhttp | packages/vpn/src/singbox.ts:227-233 | the `sing-box` profile does not depend on any node's `xhttp` |
| ProfileDialects.ErasureIffChoosable | packages/vpn/src/singbox.ts:227-288 | erasing XHTTP leaves, their tags and `local` from an `sbr` profile gives the `sing-box` one if and only if a choice of entries is left or there was no XHTTP |
| ProfileDialects.GuestSeesNoHy2AndNoExit | packages/vpn/src/singbox.ts:204-208 | a guest's profile is the same with every hy2 secret blanked and every exit removed |
| ProfileDialects.ProfileIsPerUser | packages/vpn/src/singbox.ts:204-205 | a profile is the same with every other user's credentials removed |
| Xray.Credentials | packages/vpn/src/xray.ts:117-124 | one credential under each user's name and no other |
| Xray.DialledIff | packages/vpn/src/xray.ts:19-53 | a destination address is dialled if and only if it is not on the deny list of a guest and, when private, is the gateway's resolver or in the tailnet |
| Xray.RouteCases | packages/vpn/src/xray.ts:131-249 | a connection is blocked exactly when its user is a guest and its address is on the deny list, whoever else is in the roster |
| Xray.DeniedByOctet | packages/vpn/src/xray.ts:19-30 | the IPv4 addresses the deny list covers, octet by octet |
| Xray.DeniedByHextet | packages/vpn/src/xray.ts:19-30 | the IPv6 addresses the deny list covers: the loopback and fc00 to fdff |
| Gateway.TailnetFlowsDialled | packages/vpn/src/xray.ts:43-48 | the ranges a profile routes to the entry are the ranges the gateway dials: for every admin, and for no guest |
| Gateway.ResolversReached | packages/vpn/src/singbox.ts:225-227 | the resolver a profile picks is reachable through the gateway, except the tailnet's by a guest |
| Profiles.KeysApart | packages/vpn/src/profiles.ts:63-78 | for every valid roster no two users or clients share a key: `.sbr` cannot collide with a name |
| Profiles.OnePathEach | packages/vpn/src/profiles.ts:80-105 | with an injective digest the served table has one path per user and client, no other, and that user's own profile behind each |
| Profiles.ServedAtPaths | packages/vpn/src/profiles.ts:60-105 | behind the path of a user's name is the profile for every client, behind that of the name and `.sbr` the one for sbr, and the latter path exists exactly where some node has an XHTTP entry |
| AuthIdentity.BootedAllowlist | apps/auth/src/config.rs:76-134 | what boots admits somebody and never the empty login; an empty list does not boot |
| AuthIdentity.AllowedIff | apps/auth/src/config.rs:112-121 | a login is allowed if and only if some entry has its length and at every place the same character or the other case of that ASCII letter |
| AuthIdentity.AllowedIgnoresCase | apps/auth/src/config.rs:112-118 | two spellings of a login that differ in ASCII case are allowed or refused alike |
| AuthIdentity.AllowlistIsRead | apps/auth/src/config.rs:127-134 | the list is the names between the commas without the white space around them, blanks dropped |
| AuthIdentity.AddressIsVouchedFor | apps/auth/src/github.rs:81-176 | the address is marked verified exactly when GitHub verified one; then it is the best such, otherwise the no-reply address |
| AuthIdentity.AccountsApart | apps/auth/src/github.rs:70-79 | accounts have one subject each, and two no-reply addresses are equal only for one account under one login |
| AuthIdentity.ClaimsRoundTrip | apps/auth/src/hydra.rs:131-170 | claims written into a session context are read back unchanged, whatever the subject |
| AuthIdentity.AnyContextIsRead | apps/auth/src/hydra.rs:131-158 | of any context: what a missing or mistyped login, address or flag is read as |
| AuthSafety.RunKeepsSafe | apps/auth/src/routes.rs:116-394 | in every run from a safe state every accepted login and consent is an allowed person's, and an unregistered client's was approved |
| AuthSafety.AcceptedAreOnTheList | apps/auth/src/routes.rs:116-394 | so in every such run whoever is accepted is on the list, character by character but for case |
| AuthSafety.AlwaysSafeIffHeldSafe | apps/auth/src/routes.rs:370-394 | that holds of every run if and only if Hydra starts with no grant and no open consent of somebody outside the list |
| AuthFlows.VerdictsWithinStarts | apps/auth/src/store.rs:60-80 | the verdicts on a login challenge never outnumber the flows started for it |
| AuthFlows.FlowsAreBound | apps/auth/src/routes.rs:158-284 | under every interleaving and expiry a flow is taken at most once, a verdict names its flow's challenge and follows a csrf match, and verdicts never outnumber flows |
| AuthProvenance.TokensComeFromGithub | apps/auth/src/hydra.rs:293-314 | in every run the subject, name, address and verified flag of an ID token are together those one code exchange of that run was answered with, or those of somebody Hydra held at the start, through any number of skipped logins |
| AuthProvenance.VerifiedMeansVerified | apps/auth/src/github.rs:165-175 | unless Hydra held the person before, an address marked verified on a token is the best one that GitHub listed as verified in an answer of the run, and the answer names the token's subject and login |
| AuthHandlers.Provider.Login | apps/auth/src/routes.rs:116-176 | the handler as a run of steps, its whole new state in every branch: skip with an address accepts or rejects by the list, anything else starts one flow for that challenge, and a lost reply leaves what the call did |
| AuthHandlers.Provider.GithubCallback | apps/auth/src/routes.rs:215-284 | a missing flow expires without effect, a foreign `state` spends the flow, and a verdict is recorded only for the flow's own challenge, whether or not its reply is heard |
| AuthHandlers.Provider.AnswerChallenge | apps/auth/src/routes.rs:241-284 | the sign-in is accepted only for an allowed login GitHub answered with, under that identity's claims; a lost reply reads as a fault and stays accepted |
| AuthHandlers.Provider.Consent | apps/auth/src/routes.rs:297-356 | list first, then registration, then the page; a refusal revokes the subject's consent sessions and, once that was heard, its logins, and rejects either way |
| AuthHandlers.Provider.ConsentDecision | apps/auth/src/routes.rs:370-394 | a consent is granted only on approve, with the session's own claims, and a lost reply leaves it granted |
| AuthHandlers.Provider.TakeFlow | apps/auth/src/store.rs:73-80 | GETDEL: returns what was there and leaves nothing, so a replay finds nothing |
| AuthHandlers.Provider.CreateFlow | apps/auth/src/store.rs:60-71 | SET under a fresh id adds that one flow |
| AuthHandlers.Provider.Revoke | apps/auth/src/hydra.rs:325-356 | two revocations in turn, the second only after the first was heard; whatever became of them the rejection follows |
| AuthHandlers.RevokedLeavesNothing | apps/auth/src/hydra.rs:325-356 | when both take effect no login and no consent session of the subject is left, and everybody else's are untouched |
| AuthHandlers.AcceptedIsRemembered | apps/auth/src/hydra.rs:242-314 | an accepted login may be skipped and consented on next time, and a granted consent is a session to be revoked |
| Pins.ReadMeans | scripts/update-apps/versions.ts:228-243 | a value that is read is the literal of an entry for the pin and any other entry begins within that one; a sole entry's literal is what is read |
| PinTexts.DependencyIsRead | scripts/update-apps/versions.ts:258-282 | a manifest line with the name, whatever white space in front of it and behind its colon, is read as its literal, if no other line opens with the name |
| PinTexts.ConstReadIff | scripts/update-apps/versions.ts:228-256 | a line with the key is read as its literal if and only if exactly one blank stands behind the colon |
| Pins.WrittenIsRead | scripts/update-apps/versions.ts:237-282 | what can be read can be written, and reads back as written if and only if it holds no quote, line breaks or not |
| Pins.WriteChangesTheLiteral | scripts/update-apps/versions.ts:245-256 | the text before and after the literal stays, character for character |
| Pins.WriteIsUndone | scripts/update-apps/versions.ts:249-282 | writing the old value back restores the source exactly |
| Pins.OtherPinsKeepTheirValue | scripts/update-apps/versions.ts:237-282 | every other key or dependency reads what it read unless a line within the old literal or the new one opens an entry for it |
| Pins.HarmlessWrite | scripts/update-apps/versions.ts:237-282 | of values without a quote, no line of which starts like the other pin's entry, the write reads back and the other pin reads what it read |
| Pins.LineBreakTakesAnother | scripts/update-apps/versions.ts:237-256 | a source and a value with a line break after whose writing another pin reads that value |
| Versions.CompareVersions | scripts/update-apps/versions.ts:91-111 | the loop with its early returns computes the comparison the order theorems are about |
| Versions.PartsSpelled | scripts/update-apps/versions.ts:80-93 | a tag's parts are what its full stops and hyphens, and nothing else, set apart from the first digit on |
| Versions.TagsOrderedIff | scripts/update-apps/versions.ts:87-111 | on any list of tags the comparison is a total preorder if and only if no three of them form a knot |
| Versions.OrdinaryTagsOrdered | scripts/update-apps/versions.ts:87-111 | tags whose parts are empty, digits, or no numerals on one side of all numerals form none |
| Versions.RegularTagsOrdered | scripts/update-apps/versions.ts:87-111 | nor do tags with numerals of any spelling beside words that start above the digits |
| Versions.Antisymmetric | scripts/update-apps/versions.ts:91-111 | on all tags whatever, swapping the two turns the sign |
| Versions.FirstDifferenceDecides | scripts/update-apps/versions.ts:87-111 | the first numerals that differ decide by value, so `0.1.19` is above `0.1.9`, and a version that goes on is above one that ends |
| Versions.TagsCompareByVersion | scripts/update-apps/versions.ts:80-93 | behind a prefix whose stem is empty, such as `v` or `s3-`, tags compare as their versions do, whatever follows the first digit |
| Versions.PrefixKeepsOrderIff | scripts/update-apps/versions.ts:80-111 | behind any prefix all versions that start with a number are ordered as without it if and only if, with the stem it leaves in front, every number is still read as one and numbers keep their order |
| Versions.OrdinaryPrefixIff | scripts/update-apps/versions.ts:80-111 | that is, for a stem of digits or one that no number is read behind, if and only if the stem is empty or all zeros |
| Versions.DigitInPrefix | scripts/update-apps/versions.ts:80-93 | behind `s3-v`, `10` is older than `9` |
| Versions.LatestIsNewest | scripts/update-apps/versions.ts:113-128 | something is picked exactly when there is a candidate; with no knot among the candidates none is newer than it and it ties with the last of any sorting of them |
| Versions.LatestIgnoresListing | scripts/update-apps/versions.ts:116-128 | nothing is picked exactly when no tag has the prefix, and with no knot the listing's order matters only up to ties |
| Versions.FitsIffAside | scripts/update-apps/versions.ts:99-108 | a part that is no numeral keeps the comparison a total preorder beside numerals if and only if it is on one side of all of them |
| Versions.NoNewest | scripts/update-apps/versions.ts:91-111 | `1.9`, `1.10` and `1.1a` are each older than another |
| Updater.Updater.Go | scripts/update-apps/update-apps.ts:262-348 | the loop over the entries, with cache, tree, failures, titles and commits, computes the pass; a bump that was decided is always written |
| Updater.Updater.Source | scripts/update-apps/update-apps.ts:243-250 | a file is read from disk once and from the cache afterwards |
| Updater.CacheIsDisk | scripts/update-apps/update-apps.ts:228-250 | after every pass, dry or not, each cached file is the file on disk |
| UpdaterReleases.TagIsRelease | scripts/update-apps/update-apps.ts:135-155 | an entry takes its branch's head, or the latest release, or, with a prefix, a listed tag that starts with its own prefix and than which none such is newer; none exactly when there is none |
| UpdaterReleases.LiveIffPublished | scripts/update-apps/update-apps.ts:272-291 | which registry is asked about what, and that nothing else keeps an entry back |
| UpdaterReleases.PinHoldsRelease | scripts/update-apps/update-apps.ts:262-348 | for workable entries with distinct targets, after a pass a readable pin holds the template filled with the version of such a release, from its first digit on, if that is published, and what it held otherwise |
| UpdaterTemplates.PlainIsWorkable | scripts/update-apps/update-apps.ts:262-348 | templates, tags and present values on one line and without a quote, no dependency set to another's name, make the entries workable |
| UpdaterPasses.PassSettles | scripts/update-apps/update-apps.ts:262-348 | for workable entries, what the files hold for any pin after a pass is what the entries in turn make of that pin's value alone |
| UpdaterPasses.BumpHoldsIff | scripts/update-apps/update-apps.ts:305-321 | workable or not, a bump reads as its value afterwards if and only if that holds no quote |
| UpdaterPasses.EachPinMovesOrStays | scripts/update-apps/update-apps.ts:278-320 | for workable entries with distinct targets each pin ends at its own next value or where it was |
| UpdaterPasses.OtherPinsStay | scripts/update-apps/update-apps.ts:228-250 | for workable entries a pin none of them names keeps its value in every file |
| UpdaterPasses.SecondPassIsQuiet | scripts/update-apps/update-apps.ts:262-348 | for workable entries with distinct targets a second pass over the same answers writes nothing, commits nothing and names no bump; it fails for the entries whose pins the first pass emptied and those it failed for |
| UpdaterPasses.QuietIffAgreed | scripts/update-apps/update-apps.ts:262-348 | for workable entries, shared targets included, every pass after the first, however many there were, names no bump and makes no commit if and only if live entries that share a readable pin want one value or one of them empties it; then it writes nothing |
| UpdaterTemplates.NextEmptyIff | scripts/update-apps/update-apps.ts:262-274 | what a live entry writes is empty exactly when its value is, or is holes only with no digit in the release tag, or is one hole for a branch of `$` patterns that vanish |
| UpdaterTemplates.PinLostIffEmptied | scripts/update-apps/versions.ts:173-226 | for workable entries with distinct targets a pass turns a live entry's readable pin into a failure exactly under that condition on the entry and the tag |
| UpdaterTemplates.PinIsLost | scripts/update-apps/versions.ts:173-226 | tag `v` and value `{version}` on `a: "1"` meet it |
| UpdaterPasses.DryRunForetellsIff | scripts/update-apps/update-apps.ts:219-221 | for workable entries, shared targets included, the dry run and the real one have said the same after each entry if and only if none so far finds its pin moved, by another on it, to where it decides otherwise |
| UpdaterPasses.DryRunForetells | scripts/update-apps/update-apps.ts:219-221 | a dry run writes nothing, and under that condition it names the very bumps and failures the real run then has |
| UpdaterPasses.DistinctForeseen | scripts/update-apps/update-apps.ts:219-221 | distinct targets meet the condition |
| UpdaterTemplates.TwoOnOnePin | scripts/update-apps/update-apps.ts:262-348 | with two entries that want `2` and `1` for a pin at `1` the dry run does not say what the real one does and the two do not agree; with another on the same pin that empties it they count as agreed |
| UpdaterTemplates.TemplateIsFilled | scripts/update-apps/versions.ts:130-131 | in every template each `{version}` gives way to the version as it is, if that has no `$` pattern in it, and nothing else changes |
| UpdaterTemplates.DoubledIsLiteral | scripts/update-apps/versions.ts:130-131 | with every `$` doubled any version is written as it is |
| UpdaterTemplates.MatchPutsItBack | scripts/update-apps/versions.ts:130-131 | `$&` puts each hole back |
| UpdaterTemplates.SidesOfTheHole | scripts/update-apps/versions.ts:130-131 | `` $` `` and `$'` write what is in front of the hole and behind it |
| UpdaterTemplates.NextIsPlain | scripts/update-apps/versions.ts:130-131 | what is written holds no quote or line end if the template and the tag hold none, `$` patterns included |
| Damage.Join | packages/home/src/btrfs.ts:24-38 | after the log the two arrays hold the blocks not repaired and every block's references in log order |
| Damage.Damaged | packages/home/src/btrfs.ts:24-40 | each unrepaired block is visited once and its references printed |
| Damage.OnePassIsEnough | packages/home/src/btrfs.ts:14-40 | in whatever order blocks are visited the output is a permutation of what a second pass that knows the verdicts would keep |
| Damage.VerdictsMayComeAnywhere | packages/home/src/btrfs.ts:18-22 | two logs with the same references in order and the same verdicts print the same |
| Damage.OutputNamesTheDamage | packages/home/src/btrfs.ts:24-40 | read back row by row the output is exactly those references, each as often as logged |
| KernelLog.LineIsMessage | packages/home/src/btrfs.test.ts:17-48 | the kernel's three messages in full |
| KernelLog.LineRead | packages/home/src/btrfs.test.ts:17-48 | a kernel message is read as what it says if and only if it is not a reference to a path with `(path: ` or `unable to fixup` in it |
| KernelLog.ReportNamesLostFiles | packages/home/src/btrfs.ts:14-40 | from kernel events, none of whose paths holds one of the program's own markers, to rows: the files of the blocks given up, repaired ones dropped |
| Retention.NamesInOrder | packages/home/src/btrfs.ts:145-158 | lexical order of the timestamp names is the order of the times, and different times have different names |
| Retention.Directory.Run | packages/home/src/btrfs.ts:151-161 | snapshot, list, sort, delete in turn: what is left, and whether it completes |
| Retention.PolicyMetIffCompletes | packages/home/src/btrfs.ts:145-161 | a run leaves the newest `keep` if and only if no stray name is old enough to be deleted |
| Retention.RunsKeepNewest | packages/home/src/btrfs.ts:155-161 | after any number of runs, strays or not, what is left is the newest `keep` of all there ever was if and only if no stray is old enough to be deleted then |
| Retention.LatestSnapshotsStay | packages/home/src/btrfs.schemas.ts:19-20 | in terms of time: a snapshot is among the newest `keep` exactly when fewer than `keep` later snapshots and strays sort behind it; the one just taken stays while the clock advances, if fewer than `keep` strays do |
| Retention.StrayStopsDeletion | packages/home/src/btrfs.ts:145-149 | once a run has failed every later one fails, whatever is taken; nothing at or behind the stray is deleted again, and nothing at all while the snapshots to come sort behind it |
| TailnetRule.GrepFindsPref | packages/hetzner/src/tailnet-rule.ts:64-65 | the pattern matches a line of the listing exactly when a rule has that pref, not a longer number |
| TailnetRule.RuleTable.Turn | packages/hetzner/src/tailnet-rule.ts:62-67 | one turn of the loop on the kernel's table |
| TailnetRule.TurnRestores | packages/hetzner/src/tailnet-rule.ts:30-33 | from any table a rule is there afterwards if and only if it was or its pref was free; nothing is added twice, dropped or reordered |
| TailnetRule.RestoredSpelled | packages/hetzner/src/tailnet-rule.ts:19-28 | the rules restored are pref 5208 to 10.42.0.0/16 and 5209 to 100.64.0.0/10, both into table 52 |
| TailnetRule.UndisturbedTurn | packages/hetzner/src/tailnet-rule.ts:62-67 | the same turn, command by command with nothing in between, in the relation where others may step in |
| TailnetRule.NeverTwiceAlwaysRestored | packages/hetzner/src/tailnet-rule.ts:62-67 | however others edit the table between any two commands, neither rule is ever there twice, and one undisturbed turn restores both |
| TailnetRule.RulesSteerExactly | packages/hetzner/src/tailnet-rule.ts:19-28 | past earlier rules, packets to the two ranges take their route in table 52 whatever their mark, and all others resolve as without the rules |
| TailnetRule.SteeredByOctet | packages/hetzner/src/tailnet-rule.ts:19-28 | the same octet by octet |
| TailnetRule.BypassByIdentity | packages/hetzner/src/tailnet-rule.ts:8-17 | the bypass mark is hit exactly by the identities that are 8 modulo 256 |
| TailnetRule.TurnEndsDiversion | packages/hetzner/src/tailnet-rule.ts:8-25 | without the rules a packet is diverted exactly when its identity collides; after one turn none is |
| TailnetRule.PodsByOctet | packages/hetzner/src/cilium.ts:8 | the pod network is the addresses that start 10.42 |
| Net.TailnetByOctet | packages/hetzner/src/tailnet-rule.ts:23-24 | 100.64.0.0/10 is the addresses from 100.64 to 100.127 |
| Net.TailnetByHextet | packages/hetzner/src/tailnet-rule.ts:23-24 | fd7a:115c:a1e0::/48 is the addresses that start so |
| Roster.ParseVpnUsers | packages/vpn/src/users.ts:24-44 | succeeds exactly on a valid roster, with its users in order, and otherwise names what is wrong with the first token that cannot be taken |
| Roster.PrintedIsRead | packages/vpn/src/users.ts:18-44 | a printed roster reads back as itself, and what reads at all is valid |
| Roster.TypedIsRead | packages/vpn/src/users.ts:18-44 | a roster reads as its users whatever white space is around the names, the stars and the commas, blanks skipped |
| Roster.NameSpelled | packages/vpn/src/users.ts:16 | which names are names, by code point |
| Text.WhiteByCode | packages/vpn/src/users.ts:27-29 | what counts as white space to JavaScript and to Rust, by code point |
| Ports.DeriveExitPort | packages/vpn/src/exit.ts:22-26 | the loop in signed 32-bit arithmetic gives the unbounded polynomial's port, between 20000 and 29999 |
| Ports.CodeUnitSpelled | packages/vpn/src/exit.ts:24 | what `charCodeAt` gives for each character: its code point, or the upper surrogate |
| Ports.PortOfCodePoints | packages/vpn/src/exit.ts:22-26 | which is 20000 plus 5381 and the name's code points, weighed by powers of 33, modulo 2^32 and then 10000 |
| Ports.TurnExact | packages/vpn/src/exit.ts:24 | every intermediate value is exact in a double, and a turn is 33h + c modulo 2^32 |
| Ports.AcceptedIffNoClash | packages/infra/src/main.ts:88-101 | an exit list is accepted if and only if no two exits on one node have one port |
| Publishing.Estate.PublishRoutes | packages/infra/src/services.ts:662-692 | the loop creates the records and ingresses in order and reports each service's last route |
| Publishing.OneRecordEach | packages/infra/src/services.ts:653-671 | one record for each distinct hostname with a zone, in that zone, and for no other |
| Publishing.RecordsSpellTheirHosts | packages/infra/src/services.ts:662-671 | each record lies in a zone that holds its hostname and spells the hostname there, `@` for the zone itself, for every hostname with a full stop but `@.` and the zone; resources have names of their own |
| Publishing.RecordsCoverTheZones | packages/infra/src/services.ts:662-671 | with two-label zones those are exactly the routed hostnames that lie in a zone |
| Publishing.ServesIffTwoLabels | packages/infra/src/services.ts:141-154 | a zone is found for every hostname under it if and only if its name has two labels |
| Publishing.RecordNamesItsHost | packages/dns/src/dns.ts:51-52 | a record's name in its zone spells the hostname again if and only if that has two labels or more and is not `@` before its zone |

## Left out

- Pins.OtherPinsKeepTheirValue: fails where a line within the old literal or the new one opens an entry for the other pin, and `Pins.LineBreakTakesAnother` shows it failing; nothing is said of what the other pin then reads.
- PinTexts.DependencyIsRead: where no other line opens with the name; of texts where one does, `Pins.ReadMeans` speaks.
- Ports.PortOfCodePoints: for names of characters below U+10000; of others the loop takes the upper surrogate, and the port is `Ports.DeriveExitPort`'s.
- UpdaterPasses.PassSettles: for workable entries, that is present and next values without a quote and without a line that opens an entry for another of the pins. A quoted value is not read back as written (`UpdaterPasses.BumpHoldsIff`), so what a pass leaves is then no function of the values alone.
- UpdaterPasses.EachPinMovesOrStays: for workable entries, as above.
- UpdaterPasses.OtherPinsStay: for workable entries, as above.
- UpdaterPasses.SecondPassIsQuiet: for workable entries, as above.
- UpdaterPasses.QuietIffAgreed: for workable entries, as above.
- UpdaterPasses.DryRunForetellsIff: for workable entries, as above.
- UpdaterTemplates.PinLostIffEmptied: for workable entries, as above.
- Updater.Updater.Go: pulling, committing to git, the lockfile refresh, the push and the issue are not modelled; a commit is its message. Files go by their joined path, so two spellings of one path are one file already.
- Versions.PrefixKeepsOrderIff: of versions whose first part is all digits; what `Number` makes of `0x10` behind a zero is its own.
- Versions.OrdinaryPrefixIff: for stems such as `0x` and `1e`, behind which `Number` does read a number, only `Versions.PrefixKeepsOrderIff` speaks.
- Versions.LatestIsNewest: what a JavaScript engine's sort does with an inconsistent comparison is not specified, so beside a knot only membership is claimed. How `Number` reads a segment is a parameter, and it never answers an infinity.
- Xray.DialledIff: destinations given as addresses only; how Xray resolves a domain for its rules, its built-in list of private addresses (a parameter), and IPv4 addresses mapped into IPv6 are its own.
- Profiles.OnePathEach: that 32 hexadecimal digits of SHA-256 do not collide is assumed.
- AuthSafety.RunKeepsSafe: the allowlist is fixed for the run, and Hydra raises a consent only on an accepted login and with that login's context. A consent that was refused leaves nothing in the record.
- AuthHandlers.Provider.Login: flow ids and csrf values are fresh arguments; cookies, HTML and HTTP errors are responses without content.
- Damage.Damaged: regular expressions are the three the program has; rate limiting in the kernel, the shell's `read`, `dirname`, and the `sed` that maps a snapshot's path to the live subvolume are not part of the model.
- KernelLog.ReportNamesLostFiles: for paths without the program's own markers; with one its line is misread (`KernelLog.LineRead`), and what the whole report then says is not described.
- Retention.Directory.Run: a snapshot name that exists already (the clock standing still) and hidden files are outside it; so is the locale of `sort`.
- TailnetRule.NeverTwiceAlwaysRestored: one copy of the loop on a node, and nobody else adding rules at the two prefs.
- Ports.TurnExact: a configured port is taken as given.
- Strings are sequences of Unicode scalar values; JavaScript orders and counts UTF-16 code units, which differ beyond U+FFFF (`charCodeAt` in the port hash is modelled).
- The constant settings of a profile (log, cache, tun, urltest interval, uTLS) and of the Xray inbounds are data without behaviour here.
- `redirect_hosts` and the wording of the consent page, `parseImageRef`, `chartServes`, zod schemas, cookie syntax: single-branch facts.
- Pulumi resources, Helm values, provisioning scripts, dashboards, mail and Bluesky records: data handed to libraries.
- Cryptography and randomness: fresh or injective values.
