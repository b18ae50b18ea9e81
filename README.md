# muddle, modelled in Dafny

muddle is a build system. It names everything it builds with a *label*,
`type:(domain)name{role}/tag[flags]`, for example
`package:(sub)busybox{x86}/installed`. A rule says which labels must be
built before a target label, and what action builds it. The build
description registers checkouts (sources under version control),
packages (built from checkouts in one or more roles) and deployments
(what is shipped). muddle then works out which labels a target needs,
builds them in dependency order, and records each one it built as a tag.

This project models the core of muddle in Dafny and proves properties
of the model. It covers:

- labels: their parser, renderer, ordering and wildcard matching, and
  the domain sweep done when a build is included as a sub-domain;
- rules, rule sets and the build scheduler;
- the Builder's per-label environments, role bans and build loop;
- the in-memory database of checkouts, upstreams and licences;
- repositories and version control decisions: branch following, sync,
  and pull and push permissions;
- the helpers that register checkout, package and deployment rules,
  including packages built with make;
- the command registry and command-line decoding;
- version stamps and release specifications;
- licences and how GPL obligations propagate;
- cpio archives in the SVR4 "newc" format;
- the `${...}` template substitution;
- the rewriting of libtool (`.la`) and pkg-config (`.pc`) files;
- the Bazaar and Subversion text handling;
- the documentation suffix index;
- two sandbox scripts: interpatch, and the line splitter and exit code
  of FullCheckNames.

Each source module becomes one Dafny module:

| Dafny module | file | source |
|---|---|---|
| `Labels`, `LabelMatching`, `Rules`, `Scheduler`, `Requirements` | labels, label_matching, rules, scheduler | muddled/depend.py |
| `Building`, `Mechanics` | builder, mechanics | muddled/mechanics.py |
| `Utils`, `DomainNames`, `Dicts`, `Versions` | utils, domain_names, dicts, versions | muddled/utils.py |
| `Db` | db | muddled/db.py |
| `Repositories` | repository | muddled/repository.py |
| `Subst` | subst | muddled/subst.py |
| `Cpio` | cpio | muddled/cpiofile.py |
| `Licenses` | licenses | muddled/licenses.py |
| `VersionStamps` | version_stamp | muddled/version_stamp.py |
| `VersionControl` | version_control | muddled/version_control.py |
| `Packages` | pkg | muddled/pkg.py |
| `Deployments` | deployment | muddled/deployment.py |
| `FileDeployments` | filedep | muddled/deployments/filedep.py |
| `Commands` | commands | muddled/commands.py |
| `CommandLine` | cmdline | muddled/cmdline.py |
| `Rewrite` | rewrite | muddled/rewrite.py |
| `DocReport` | docreport | muddled/docreport.py |
| `MakePackages` | make | muddled/pkgs/make.py |
| `Bazaar` | bazaar | muddled/vcs/bazaar.py |
| `Subversion` | svn | muddled/vcs/svn.py |
| `Interpatch` | interpatch | sandbox/interpatch.py |
| `ToDoFinder` | todofinder | sandbox/ToDoFinder/FullCheckNames.py |
| `Wrappers`, `Text`, `Vocabulary` | wrappers, text, vocabulary | shared: Option/Result and muddle's exceptions, Python string operations, standard label types and tags |

Where the source updates objects in place, the model uses classes with
`modifies` clauses: `RuleSet`, `Builder`, `EnvStore`, `LabelCell`,
`Database`, `PathFile`, `Hierarchy`, `ReleaseSpec`, `PushbackInputStream`,
`HashThing`, `Commit`, the dictionaries and the registries. Pure
computations are functions, and loops are methods proved against a
specification function.

Python exceptions are results. `GiveUp` and `MuddleBug` are muddle's own
exceptions. `Crash` stands for a Python runtime error such as an
IndexError, a KeyError or a ValueError. Where a loop in the source leaves
earlier changes in place before raising, the model does too.

Modelled as written, though arguably not what was meant:

- `Rule.catenate_and_merge` drops the union of the dependencies it
  computes (`Rules.CatenateDropsDeps`).
- `Hierarchy.erase_target` leaves the erased names in the map (`Cpio.Hierarchy.EraseTarget`).
- `VersionNumber.__lt__` compares `minor` whatever `major` is. See
  Findings for the corrected order.
- In `add_checkout_rules`, the dependency of `changes_committed` on
  `pulled` is added to the rule object after that object has been filed.
  It therefore reaches the rule set only when no rule for the committed
  target existed before (`Packages.CommittedRuleKeptWithoutPull`).

Modelled as corrected. Where a finding below shows the source is wrong,
the rest of the model uses the corrected definition. These members
therefore differ from the program on the finding's inputs, as "## Left out"
says member by member:

- the corrected `unquote_list`: `Rewrite.LaLineCases` and `Rewrite.SubstLa`;
- the corrected `default_path`: `Repositories.New`;
- the corrected join of `branch.conf` values: `Bazaar.Entry`,
  `Bazaar.ReadBranchConf`, `Bazaar.Reparent`, `Bazaar.ReparentWithoutForce`
  and `Bazaar.ReparentWithForce`;
- the line-by-line conflict check: `Subversion.Pull` and
  `Subversion.GotoRevision`;
- the corrected newline strip: `Subst.NodeText` and `Subst.QueryStringValue`;
- the corrected header recognition: `Interpatch.DoDiff`.

## Model

| member | source | states |
|---|---|---|
| Vocabulary.DefaultTag | muddled/utils.py:177-181 | checkout maps to checked_out, package to postinstalled and deployment to deployed, pair by pair; no other label type has a default tag |
| Labels.SplitLabelDomain | muddled/depend.py:767-789 | an accepted domain text matches the domain character class and splits into one or more non-empty parts free of '('; every refusal is a GiveUp |
| Labels.SplitNested | muddled/depend.py:771-789 | the nesting loop yields parts exactly when the text is non-empty, each part non-empty and without '('; unbalanced or empty parts give GiveUp |
| Labels.NewLabel | muddled/depend.py:135-249 | the constructor accepts exactly when type, name, role, tag and domain are well formed; the label it builds holds those parts, with the domain '' stored as None; refusals are GiveUp |
| Labels.Render | muddled/depend.py:519-542 | the text of a label always holds the ':' after the type and the '/' before the tag |
| Labels.RenderMarked | muddled/depend.py:519-542 | the same for a label shown with its unswept flag D |
| Labels.RunLength | muddled/depend.py:94-98 | the longest prefix whose characters are all in a character class: every character before it is in the class and the next one is not |
| Labels.MatchPart | muddled/depend.py:94 | `[A-Za-z0-9._+-]+` or `*` matches at the start exactly when the first character can begin a part; the match is a valid part and the text is match plus rest |
| Labels.MatchRole | muddled/depend.py:105-107 | the optional braced role: what is left is a suffix of the text, and a role read is a valid part with the text being '{' role '}' rest |
| Labels.EmptyBraces | muddled/depend.py:105-107 | empty braces give no role and leave a suffix of the text |
| Labels.MatchFlags | muddled/depend.py:109-111 | the optional bracketed flags: what is left is a suffix, and the flags read are one or more letters or digits |
| Labels.LastClose | muddled/depend.py:101-103 | where the greedy domain group can end: a ')' at or before the bound, with no ')' after it up to the bound |
| Labels.FromString | muddled/depend.py:849-869 | every label parsed from a string satisfies the constructor's checks |
| Labels.MissingTagRefused | muddled/depend.py:834-839 | a string with a type and a name but no `/tag`, such as `package:busybox`, is refused |
| Labels.NewLabelOf | muddled/depend.py:135-249 | the constructor accepts every well-formed label and gives it back unchanged |
| Labels.RoundTrip | muddled/depend.py:792-869 | from_string(str(l)) gives back l, domain, role and the T and S flags included, for every label the constructor accepts |
| Labels.FlagsRead | muddled/depend.py:862-864 | the flag letters written for a label contain T exactly when it is transient and S exactly when it is a system label |
| Labels.EmptyDomainRefused | muddled/depend.py:849-852 | a label whose domain group is empty, `type:()name/tag`, is refused |
| Labels.EmptyLabel | muddled/depend.py:849-852 | a string whose type is not followed by a name, domain or tag that match is refused |
| DomainNames.SplitDomain | muddled/utils.py:1220-1269 | a domain name that split_domain accepts gives at least one part (None and '' give ['']) |
| DomainNames.Unnest | muddled/utils.py:1262-1269 | the pieces between the '(' of a name, once the closing parentheses are checked, give one part per piece |
| DomainNames.JoinDomainFlat | muddled/utils.py:1271-1284 | join_domain writes the parts joined by '(' followed by one ')' per nesting level |
| DomainNames.JoinSplitDomain | muddled/utils.py:1220-1284 | join_domain(split_domain(d)) == d for every name split_domain accepts |
| DomainNames.SplitJoinDomain | muddled/utils.py:1220-1284 | split_domain(join_domain(ps)) == ps for parts free of parentheses |
| DomainNames.NoSiblingsInJoin | muddled/utils.py:1258-1260 | a joined name never contains the sibling pattern ')(' that split_domain refuses |
| DomainNames.SortDomains | muddled/utils.py:1286-1322 | sort_domains returns as many names as it was given |
| DomainNames.SplitAll | muddled/utils.py:1307-1316 | the keys of all names, each the '~'-joined parts of its split, or an error exactly when some name does not split |
| DomainNames.SortTwoDomains | muddled/utils.py:1286-1322 | of two distinct names the one whose key sorts first comes first, the comparison Label ordering relies on |
| DomainNames.KeyRoundTrip | muddled/utils.py:1319-1322 | rebuilding a name from its sort key gives back the normalised name |
| DomainNames.KeyInjective | muddled/utils.py:1307-1322 | distinct names have distinct keys, so the sort order between two names is strict |
| DomainNames.SortDomainsPermutes | muddled/utils.py:1286-1322 | sort_domains succeeds on well-formed names and returns the normalised names, each as often as given |
| DomainNames.ParentSortsFirst | muddled/utils.py:1286-1310 | a parent domain's key sorts before each of its sub-domains' keys, so parents come first |
| DomainNames.DomainSubpath | muddled/utils.py:1324-1349 | None gives ''; a name gives a path exactly when split_domain accepts it |
| DomainNames.SubpathExample | muddled/utils.py:1331-1332 | domain_subpath('a(b)') is 'domains/a/domains/b' |
| DomainNames.SubpathOfJoin | muddled/utils.py:1324-1349 | for nested plain parts the path alternates 'domains' and the parts |
| LabelMatching.Match | muddled/depend.py:393-432 | match gives a score exactly when every field pair is equal or has a wildcard; the score lies in -5..0 and is 0 exactly for equal labels |
| LabelMatching.MatchScore | muddled/depend.py:393-432 | when the labels are compatible, the score is minus the number of the five fields in which they differ |
| LabelMatching.DifferingFields | muddled/depend.py:393-432 | the count of differing fields is the sum, over type, domain, name, role and tag, of one for each field that differs |
| LabelMatching.JustMatch | muddled/depend.py:434-485 | just_match holds exactly when every field pair is equal or has a wildcard |
| LabelMatching.JustMatchIsMatch | muddled/depend.py:393-485 | just_match and match agree, and match is symmetric |
| LabelMatching.Unifies | muddled/depend.py:366-390 | unifies holds exactly when each field of the first label equals the second's or the second's is '*' |
| LabelMatching.UnifiesMatches | muddled/depend.py:366-485 | labels that unify also match |
| LabelMatching.HashKey | muddled/depend.py:625-633 | the hash covers type, name, role and tag, and leaves the domain out |
| LabelMatching.HashAgrees | muddled/depend.py:571-633 | equal labels hash alike, and labels differing only in domain hash alike |
| LabelMatching.IsDefinite | muddled/depend.py:344-355 | a label is definite exactly when none of its five fields is '*' |
| LabelMatching.DefiniteMatchIsSame | muddled/depend.py:344-485 | between definite labels, matching is equality |
| LabelMatching.MatchWithoutTag | muddled/depend.py:487-497 | type, domain, name and role agree exactly; the tag is not looked at |
| LabelMatching.CopyAndUnifyWith | muddled/depend.py:271-298 | the copy takes the target's transient and system flags |
| LabelMatching.CopyUnifies | muddled/depend.py:271-298 | each field of the copy is the target's unless that is '*'; the copy unifies with the target, and is the original when that already unified |
| LabelMatching.CopyWithTag | muddled/depend.py:300-309 | succeeds exactly for a valid tag; only tag and flags change |
| LabelMatching.CopyWithRole | muddled/depend.py:311-318 | succeeds exactly for a valid role; only the role changes |
| LabelMatching.CopyWithDomain | muddled/depend.py:320-334 | succeeds exactly when the domain is None, '' or accepted by split_domain; only the domain changes ('' stored as None), and validity is kept |
| LabelMatching.CopyWithFlags | muddled/depend.py:336-342 | the copy equals the label; each flag given replaces the old one and the others stay |
| LabelMatching.LessIsBefore | muddled/depend.py:595-623 | __lt__ succeeds and computes the field-by-field order whenever the domains can be sorted |
| LabelMatching.DomainLessTotal | muddled/depend.py:595-623 | of two different sortable domains exactly one sorts first |
| LabelMatching.BeforeTotal | muddled/depend.py:571-623 | the label order is irreflexive, and of two labels that are not equal exactly one comes first |
| LabelMatching.BeforeTransitive | muddled/depend.py:595-623 | the label order is transitive |
| LabelMatching.Swept | muddled/depend.py:655-709 | the label given its new domain keeps its hash key |
| LabelMatching.SweptNests | muddled/depend.py:655-709 | the old domain nests inside the new one: the new domain splits into the new name followed by the old parts |
| LabelMatching.LabelCell.constructor | muddled/depend.py:135-249 | a new label is not marked unswept |
| LabelMatching.LabelCell.MarkUnswept | muddled/depend.py:635-653 | the label is marked unswept and otherwise unchanged |
| LabelMatching.LabelCell.ChangeDomain | muddled/depend.py:655-709 | only an unswept label takes the new domain, and after the call it is swept |
| LabelMatching.LabelCell.Str | muddled/depend.py:519-542 | the text of a label, D flag included, holds its ':' and '/' |
| Rules.CatenateAndMerge | muddled/depend.py:1085-1109 | fails exactly when complaining is asked for and both rules have an action; otherwise target and dependencies stay this rule's, an action is left exactly when either rule had one, and with replacement the other rule's action wins |
| Rules.CatenateDropsDeps | muddled/depend.py:1085-1133 | a dependency only the other rule has ends up in merge's result but not in catenate_and_merge's |
| Rules.RewriteUnifies | muddled/depend.py:1069-1082 | a dependency that unifies with the source is rewritten to one that unifies with the target; others are left alone |
| Rules.UnifyDependencies | muddled/depend.py:1069-1082 | every dependency of the rule is rewritten and nothing else changes |
| Rules.AddDep | muddled/depend.py:1111-1115 | the rule gains exactly the one dependency |
| Rules.AddRule | muddled/depend.py:1257-1271 | adding a rule files its target and keeps every rule filed under its own target |
| Rules.AddRuleIdempotent | muddled/depend.py:1257-1271 | adding the same rule twice is the same as adding it once |
| Rules.AddRuleUnion | muddled/depend.py:1117-1133 | the filed rule gains the new dependencies and takes the new action when there is one; other targets are untouched |
| Rules.MergeMaps | muddled/depend.py:1383-1391 | merging two rule sets files every target of either |
| Rules.MergeOne | muddled/depend.py:1383-1391 | adding one rule of the other set is one step of the merge |
| Rules.RulesForMatchingTargets | muddled/depend.py:1274-1328 | rules_for_target with matching returns exactly the rules of the targets targets_match finds |
| Rules.AnyDep | muddled/depend.py:1367-1379 | the scan of one rule's dependencies finds a hit exactly when some dependency passes the test |
| Rules.NormaliseCheckoutLabel | muddled/depend.py:1835-1867 | refuses anything but a checkout label (and an invalid tag it would need); the result is the checkout with the tag, no role and no flags |
| Rules.NormaliseIdempotent | muddled/depend.py:1835-1867 | normalising twice is normalising once, and labels differing only in role, tag or flags normalise alike |
| Rules.RetagLabelList | muddled/depend.py:1606-1618 | every label is copied with the new tag and flags cleared, in order; an invalid tag fails unless there is no label |
| Rules.AddAll | muddled/depend.py:1257-1271 | adding rules one by one keeps every rule filed under its own target |
| Rules.AddAllKeepsDeps | muddled/depend.py:1257-1271 | adding rules never loses a dependency, neither the added rules' nor those already there |
| Rules.ChainRules | muddled/depend.py:1511-1541 | depend_chain adds one rule for the label plus one per tag |
| Rules.ChainShape | muddled/depend.py:1511-1541 | the first rule is the label with no dependencies; each later one is the retagged label depending on the label before |
| Rules.ChainStep | muddled/depend.py:1527-1541 | one more tag extends the chain by exactly one rule |
| Rules.ChainDepends | muddled/depend.py:1511-1541 | after the chain is added every tag's label is a target and depends on the label before it, whatever the set held |
| Rules.RuleSet.constructor | muddled/depend.py:1254-1255 | a new rule set is empty |
| Rules.RuleSet.Add | muddled/depend.py:1257-1271 | the map becomes AddRule of the old one |
| Rules.RuleSet.DependChain | muddled/depend.py:1511-1541 | succeeds exactly when every tag is valid, and then holds the chain's rules added to the old set |
| Rules.RuleSet.Merge | muddled/depend.py:1383-1391 | the map becomes the merge of both sets' maps |
| Rules.RuleSet.RulesForTarget | muddled/depend.py:1274-1302 | returns exactly the rules whose target is the label, or matches it when asked |
| Rules.RuleSet.TargetsMatch | muddled/depend.py:1309-1328 | returns exactly the targets equal to or matching the label |
| Rules.RuleSet.RuleForTarget | muddled/depend.py:1330-1346 | returns the filed rule; for an unknown label creates and files an empty rule only when asked, else returns None and changes nothing |
| Rules.RuleSet.RulesWhichDependOn | muddled/depend.py:1349-1381 | returns exactly the rules with a dependency equal to or matching the label |
| Rules.RuleSet.ExpandWildcards | muddled/depend.py:1433-1455 | a definite label stands for itself; a wildcard stands for matching targets, and fails only when a default tag is asked for a type that has none |
| Rules.RuleSet.Unify | muddled/depend.py:1393-1431 | every target and every dependency unifying with the source is rewritten to the target, rules meeting under one target merged; a rule has no action exactly when no old rule rewriting to its target had one, and an action it has is the action of such an old rule |
| Rules.RewriteTargets | muddled/depend.py:1403-1424 | the new map's targets are the rewritten old targets, each rule coming from an old rule filed under a target that rewrites to it, and its action from one of those old rules |
| Rules.ActionFresh | muddled/depend.py:1419-1424 | a rule filed under a new rewritten target keeps the action of the one old rule it came from |
| Rules.ActionMerged | muddled/depend.py:1413-1418 | merging an old rule into the one filed under its rewritten target keeps the action coming from the old rules merged so far |
| Rules.RewriteDeps | muddled/depend.py:1426-1431 | the second pass rewrites every rule's dependencies and keeps the targets |
| Rules.OriginGrows | muddled/depend.py:1403-1424 | a rule's origin among the targets seen so far stays its origin as more are seen |
| Scheduler.OrderedPrefix | muddled/depend.py:1734-1736 | a prefix of a build order is a build order |
| Scheduler.StuckNeverBuilt | muddled/depend.py:1746-1753 | no build order ever builds a label of a stuck set, which is why the circular-or-incomplete GiveUp is right |
| Scheduler.KeyProvided | muddled/depend.py:1681-1697 | every target of the rule set has its own rule among its providers |
| Scheduler.MissingFromMap | muddled/depend.py:1705-1726 | the dependencies found missing are all dependencies of rules in the set |
| Scheduler.Initial | muddled/depend.py:1647-1649 | the requested labels stand for targets of the rule set |
| Scheduler.InitialTargets | muddled/depend.py:1647-1649 | the loop collects exactly those targets |
| Scheduler.ScanDeps | muddled/depend.py:1708-1726 | each dependency not yet built and not a target becomes a new target; the target can be built exactly when all dependencies are built |
| Scheduler.CheckDeps | muddled/depend.py:1704-1726 | over all rules of a target: the same, with the missing dependencies of every rule |
| Scheduler.AppendRules | muddled/depend.py:1728-1737 | appending the rules of a target whose dependencies are built keeps the list a build order that extends the old one and contains every appended rule |
| Scheduler.BuildPass | muddled/depend.py:1676-1742 | one pass: a target without rules is a MuddleBug; otherwise built labels only grow, each target is either built or waits with its missing dependencies as new targets, and the list stays a build order |
| Scheduler.PassShrinks | muddled/depend.py:1651-1655 | a pass that does something shrinks the work left, so the loop ends |
| Scheduler.NeededToBuildLabels | muddled/depend.py:1625-1753 | the result lists rules of the set in an order where each rule's dependencies are built before it, building every requested target; a missing rule is a MuddleBug and the GiveUp comes only with a stuck set of labels |
| Requirements.ExtraEmptyIsClosed | muddled/depend.py:1802-1805 | a round adds nothing exactly when the set is closed under "depends on" |
| Requirements.DependentsAreTargets | muddled/depend.py:1792-1798 | the rules found depending on a label are filed under targets of the set |
| Requirements.AddOutside | muddled/depend.py:1795-1799 | the targets of the new rules outside the set are added to the round's extra |
| Requirements.ExtraTargets | muddled/depend.py:1788-1800 | a round finds exactly the targets of rules depending on a label of the set that are not in it yet |
| Requirements.RequiredBy | muddled/depend.py:1756-1805 | refuses a definite label with no rule; otherwise the result is the least set holding the label's targets that is closed under "depends on", within the rule set's targets |
| Requirements.ExtraWithin | muddled/depend.py:1788-1805 | a round adds only targets that every closed superset already holds |
| Building.EnvStore.Merge | muddled/mechanics.py:1539-1552 | merging another store into this one lets the other store's settings win |
| Building.InsertByLevel | muddled/mechanics.py:1491-1523 | inserting an environment entry keeps every old entry and adds the new one, once |
| Building.InsertSorted | muddled/mechanics.py:1511-1523 | inserting keeps the entries sorted by match level, least specific first |
| Building.InsertedKeys | muddled/mechanics.py:1491-1523 | after an insertion the labels present are the old ones plus the new entry's |
| Building.LastSetter | muddled/mechanics.py:1539-1552 | the last entry whose store sets a variable: it sets it and no later entry does |
| Building.OverlayLast | muddled/mechanics.py:1539-1552 | merging the stores in order, a variable is set exactly when some entry sets it, to the value of the last entry that does |
| Building.OverlayIsEffective | muddled/mechanics.py:1539-1552 | merging the matching environments in level order gives the effective environment: each variable comes from the most specific environment setting it |
| Building.MostSpecificWins | muddled/mechanics.py:1539-1552 | when one matching environment setting a variable is strictly the most specific, its value is the one in effect |
| Building.BanBothWays | muddled/mechanics.py:1146-1192 | a ban between two different roles refuses them in either order |
| Building.SelfUnlessExact | muddled/mechanics.py:1146-1192 | a role may share with itself unless an entry bans exactly that pair, whatever the wildcard entries |
| Building.IncludedBanApplies | muddled/mechanics.py:1105-1127 | a ban the sub-domain made between two of its roles holds, once included, for those roles in the sub-domain against any domain |
| Building.IncludedBanStaysInDomain | muddled/mechanics.py:1105-1127 | outside the sub-domain such an included ban does not hold |
| Building.UnifiedFirst | muddled/mechanics.py:1088-1096 | the first unification pair whose source unifies with the label decides its replacement, which unifies with that pair's target |
| Building.UnifiedNone | muddled/mechanics.py:1088-1096 | with no pair that applies the label is left as it is |
| Building.RanNeverRepeats | muddled/mechanics.py:728-746 | build_label runs only actions of targets that were not tagged, each at most once |
| Building.RanCoversUntagged | muddled/mechanics.py:728-746 | every untagged target with an action has it run at its first rule in the list |
| Building.Builder.constructor | muddled/mechanics.py:81-167 | a new builder has no rules, environments, default roles or deployments, bans, unifications or tags |
| Building.Builder.GetEnvironmentFor | muddled/mechanics.py:1526-1536 | returns the store filed for the label, making and filing an empty one on first use; nothing else changes |
| Building.Builder.ListEnvironmentsFor | muddled/mechanics.py:1491-1523 | returns exactly the environments whose label matches, each with its match level, sorted least specific first |
| Building.Builder.EffectiveEnvironmentFor | muddled/mechanics.py:1539-1552 | returns a new store holding, for each variable, the value set by the most specific matching environment |
| Building.Builder.AddDefaultRole | muddled/mechanics.py:1455-1468 | a role not yet present is appended and reported added; a known role leaves the list unchanged |
| Building.Builder.AddDefaultDeploymentLabel | muddled/mechanics.py:1481-1489 | only a deployment label is appended; any other type is a MuddleBug with nothing changed |
| Building.Builder.RolesDoNotShareLibraries | muddled/mechanics.py:1129-1137 | exactly one ban is appended |
| Building.Builder.IncludeDomainBans | muddled/mechanics.py:1114-1127 | the sub-domain's bans follow ours in their order, with an unset first domain becoming the sub-domain and an unset second domain '*' |
| Building.Builder.RoleCombinationAcceptable | muddled/mechanics.py:1146-1192 | true exactly when no recorded ban refuses the combination |
| Building.Builder.NoteUnification | muddled/mechanics.py:1078-1079 | exactly one pair is appended |
| Building.Builder.ApplyUnifications | muddled/mechanics.py:1088-1096 | the label is replaced as the first applicable pair says |
| Building.Builder.MapUnifications | muddled/mechanics.py:1081-1086 | each label is replaced in turn, in order |
| Building.Builder.RunRules | muddled/mechanics.py:728-746 | the loop stops at the first untagged rule whose action fails, with the earlier targets tagged, that target untagged and its failure returned; with no failing action every target is tagged and the actions run are exactly those of targets untagged when the loop began, once each |
| Building.RunList | muddled/mechanics.py:728-746 | the loop on the tag set and the list of actions run, with the same outcome as RunRules |
| Building.FailAtFirst | muddled/mechanics.py:728-746 | the first failing position is the first position at or after the start whose untagged target has an action that fails |
| Building.NoFailureRunsAll | muddled/mechanics.py:728-746 | with no failing action the loop runs to the end of the list |
| Building.Builder.BuildLabel | muddled/mechanics.py:716-746 | the rules run come in build order and build the label; tags, actions run and a failing action are as for the loop; a failed schedule changes nothing and returns its error |
| Building.Builder.KillLabel | muddled/mechanics.py:668-692 | clears exactly the tags of the rules matching the label and of everything required by them |
| Building.ToKill | muddled/mechanics.py:674-692 | the labels to clear: every matching rule's target and the least closed set required by it |
| Building.MergeEntries | muddled/mechanics.py:1546-1552 | merging the listed stores in order gives a new store holding their overlay |
| Building.KillStep | muddled/mechanics.py:677-692 | handling one matching rule clears its target and what requires it |
| Building.KilledRuleIsKeyed | muddled/mechanics.py:674-680 | a rule found for the label is filed under its own target, so required_by on that target starts from it alone |
| Building.ClosedUnion | muddled/mechanics.py:677-692 | the union of two sets closed under "depends on" is closed |
| Building.SweepLabels | muddled/mechanics.py:2301-2311 | a valid sub-domain name moves every label into the sub-domain and leaves it swept; an invalid one is a GiveUp with nothing changed |
| Building.MarkAll | muddled/mechanics.py:2301-2303 | every label is marked unswept and otherwise unchanged |
| Building.ChangeAll | muddled/mechanics.py:2309-2311 | every marked label takes the new domain exactly once, even when it is listed twice |
| Building.SweptInjective | muddled/depend.py:655-709 | labels with different identities stay apart through the sweep |
| Building.SweptDomain | muddled/depend.py:655-709 | the new domain is the name alone or name(old), and the old domain can be read back from it |
| Mechanics.CheckBuildName | muddled/mechanics.py:33-41 | passes exactly for a non-empty name of letters, digits, '_' and '-'; anything else is a GiveUp |
| Mechanics.DomainBase | muddled/mechanics.py:1699-1706 | a label with no domain builds under the root itself |
| Mechanics.PackageObjPath | muddled/mechanics.py:1660-1673 | the object path exists exactly when the domain's directory can be named |
| Mechanics.RoleInstallPath | muddled/mechanics.py:1686-1697 | the install path exists exactly when the domain's directory can be named |
| Mechanics.PackageInstallPath | muddled/mechanics.py:1675-1684 | a package with role '*' installs to the role-less path, any other to its role's path |
| Mechanics.DeployPath | muddled/mechanics.py:1699-1708 | the deployment path exists exactly when the domain's directory can be named |
| Mechanics.ObjPathShape | muddled/mechanics.py:1660-1673 | an object directory is base/obj/name/role, or base/obj/name without a role |
| Mechanics.JoinPathInjective | muddled/mechanics.py:1660-1673 | distinct lists of plain components join to distinct paths under one base |
| Mechanics.ObjPartsInjective | muddled/mechanics.py:1660-1673 | different name or role give different component lists |
| Mechanics.ObjPathsDiffer | muddled/mechanics.py:1660-1673 | two packages of one domain that differ in name or role never share an object directory |
| Mechanics.DeployPathShape | muddled/mechanics.py:1699-1708 | a deployment directory is base/deploy/name |
| Mechanics.InstallPathShape | muddled/mechanics.py:1686-1697 | an install directory is base/install/role, or base/install without a role |
| Mechanics.FindCheckout | muddled/mechanics.py:974-992 | finds a checkout of the domain whose directory holds the path, or reports none exactly when no checkout of the domain holds it |
| Mechanics.Locate | muddled/mechanics.py:959-1037 | the location found is in the given domain and is the classification of the path's components, a src/ path naming the checkout that holds it |
| Mechanics.Classified | muddled/mechanics.py:994-1037 | the classification of a non-src path keeps the domain, and fails only on an obj, install or deploy path that names an invalid label |
| Mechanics.ClassifyObjPath | muddled/mechanics.py:994-1005 | the path package_obj_path builds for a package with a role is classified back as that package's object directory |
| Mechanics.ClassifyInstallPath | muddled/mechanics.py:1006-1014 | install/role is classified as the install directory of that role |
| Mechanics.ClassifyDeployPath | muddled/mechanics.py:1015-1023 | deploy/name is classified as that deployment's directory |
| Utils.SplitVcsUrl | muddled/utils.py:520-532 | a VCS name is split off exactly when a repository part is |
| Utils.SplitVcsUrlShape | muddled/utils.py:520-532 | a URL without both a '+' and a ':' has no VCS prefix; a VCS name split off is non-empty and lower case |
| Utils.SplitVcsUrlOf | muddled/utils.py:520-532 | every URL X+s:rest, with X letters, s letters and '+' and rest one line, splits into (lower(X), 's:rest') |
| Utils.SplitVcsUrlPlain | muddled/utils.py:520-532 | a plain http URL has no VCS prefix |
| Utils.SplitVcsUrlPrefixed | muddled/utils.py:520-532 | 'cVs+pserver:rest' splits into ('cvs', 'pserver:rest') |
| Utils.QuotedPlain | muddled/utils.py:815-822 | a string with nothing to escape is its own escaped form |
| Utils.MaybeShellQuote | muddled/utils.py:804-824 | with quoting asked for, the string with a backslash before each '"', '\', ''' and space; otherwise the string itself |
| Utils.UnescapeBackslashes | muddled/utils.py:1370-1387 | every backslash pair becomes its second character and a final lone backslash disappears |
| Utils.UnescapeQuoted | muddled/utils.py:801-824 | unescaping undoes shell escaping for every string |
| Utils.Unwrapped | muddled/utils.py:1407-1408 | a string starting with a quote loses its first and last characters; any other is kept |
| Utils.Merge | muddled/utils.py:1411-1430 | the merge of the space-separated pieces gives at least one element when there is anything to merge, and no more elements than pieces |
| Utils.Unquote | muddled/utils.py:1398-1432 | a blank string is an IndexError; otherwise one or more elements, at most one per space-separated piece |
| Utils.UnquoteList | muddled/utils.py:1398-1432 | the method computes exactly unquote_list's result |
| Utils.MergePieces | muddled/utils.py:1410-1432 | the merging loop computes the merge of the pieces |
| Utils.MergeFront | muddled/utils.py:1413-1428 | one step of the loop: a piece ending in a backslash is carried on without it, any other closes an element, unescaped |
| Utils.UnquoteQuotedPlain | muddled/utils.py:1391-1432 | a non-empty list of plain words survives quote_list and unquote_list unchanged |
| Utils.UnquoteLosesEscapedSpace | muddled/utils.py:1391-1432 | quote_list(['a b']) is 'a\ b', which unquote_list reads back as ['ab'] |
| Utils.MergeKept | muddled/utils.py:1411-1430 | the merge as corrected gives at least one element when there is anything to merge, and no more than there are pieces |
| Utils.UnquoteKept | muddled/utils.py:1398-1432 | the corrected unquote_list fails on blank text only, with the same bounds on the elements |
| Utils.UnquoteKeptSpaced | muddled/utils.py:1391-1432 | an element of plain words with single spaces between them survives quote_list and the corrected unquote_list: 'a b' comes back as 'a b' |
| Utils.UnquoteKeptPlain | muddled/utils.py:1391-1432 | on plain words the correction reads back what unquote_list as written reads: the list itself |
| Utils.ReplaceRootName | muddled/utils.py:1039-1052 | a name under the base gets the replacement in its place, with a leading '//' cut to '/'; any other name is kept |
| Utils.ReplaceRootNameExamples | muddled/utils.py:1039-1052 | /a/c under /a becomes /b/c, /d/e is kept, and a replacement '/' gives /c rather than //c |
| Utils.RelJoin | muddled/utils.py:1199-1217 | no virtual root gives the path itself, an empty path gives the root, and a path with at most one leading '/' stays under the root |
| Utils.PadTo | muddled/utils.py:509-518 | the string followed by as many whole copies of the padding as fit in the width; it never grows past the width, and a one-character padding reaches it exactly |
| Utils.OctalString | muddled/utils.py:1055-1069 | the octal form of a number is non-empty and made of octal digits |
| Utils.OctalRoundTrip | muddled/utils.py:1055-1069 | reading the octal form back gives the number |
| Utils.ParseMode | muddled/utils.py:1055-1069 | succeeds exactly on non-empty octal text, clearing all mode bits and setting a non-negative value; a non-digit first character is the GiveUp |
| Utils.ParseModeOctal | muddled/utils.py:1055-1069 | every mode written in octal parses back to itself |
| Dicts.SortedDict.constructor | muddled/utils.py:1473-1475 | a new sorted dictionary is empty |
| Dicts.SortedDict.Set | muddled/utils.py:1477-1479 | the key maps to the value and joins the key set |
| Dicts.SortedDict.Get | muddled/utils.py:1481-1482 | a present key gives its value; a missing key is a KeyError |
| Dicts.SortedDict.Delete | muddled/utils.py:1484-1486 | a present key is removed from map and key set; a missing key is a KeyError with nothing changed |
| Dicts.SortedDict.Len | muddled/utils.py:1488-1489 | the length is the number of keys |
| Dicts.SortedDict.Keys | muddled/utils.py:1494-1497 | iteration lists every key once, in sorted order |
| Dicts.OrderedDict.constructor | muddled/utils.py:1504-1506 | a new ordered dictionary is empty |
| Dicts.OrderedDict.Set | muddled/utils.py:1508-1511 | the key maps to the value; a new key goes to the end of the order and a known one keeps its place |
| Dicts.OrderedDict.Get | muddled/utils.py:1513-1514 | a present key gives its value; a missing key is a KeyError |
| Dicts.OrderedDict.Delete | muddled/utils.py:1516-1518 | a present key leaves the map and the order, the others keeping theirs; a missing key is a KeyError with nothing changed |
| Dicts.OrderedDict.Len | muddled/utils.py:1520-1521 | the length is the number of keys |
| Dicts.OrderedDict.Keys | muddled/utils.py:1526-1527 | iteration lists every key once |
| Dicts.FirstOrder | muddled/utils.py:1499-1511 | the keys in order of first setting: every key once |
| Dicts.FirstOrderStep | muddled/utils.py:1508-1511 | setting one more key appends it to that order only when it is new |
| Dicts.RemoveFirstDistinct | muddled/utils.py:1516-1518 | removing a key from a list without repeats removes exactly that key and keeps the list free of repeats |
| Dicts.AppendDistinct | muddled/utils.py:1508-1511 | appending a new key keeps the list free of repeats |
| Versions.New | muddled/utils.py:1668-1678 | succeeds exactly for non-negative parts, giving that version; negative parts are a GiveUp |
| Versions.Str | muddled/utils.py:1680-1684 | the text is '<unset>' exactly for an unset version |
| Versions.Next | muddled/utils.py:1707-1713 | an unset major version gives 0.0; a proper major and minor give the same major with the minor one higher; either way the result is proper |
| Versions.NextIsLater | muddled/utils.py:1696-1713 | the next version compares later than the version, and not earlier |
| Versions.UnsetIsLeast | muddled/utils.py:1716-1724 | an unset version compares below every proper one, and no proper one below it |
| Versions.FromString | muddled/utils.py:1727-1740 | a version read from text is proper and came from at most two dot-separated parts; every refusal is a GiveUp |
| Versions.FromStringOfStr | muddled/utils.py:1680-1740 | a proper version read back from its printed form is itself |
| Versions.FromStringMajor | muddled/utils.py:1733-1734 | a single number n is read as n.0 |
| Versions.LtNotAsymmetric | muddled/utils.py:1696-1701 | as written the comparison is no order: 1.5 and 2.0 each compare below the other |
| Versions.LexLtIsOrder | muddled/utils.py:1696-1724 | the corrected comparison is a strict total order with the unset version least and the next version later |
| Versions.LtAgreesWhenOrdered | muddled/utils.py:1696-1701 | the comparison as written agrees with the corrected one except on versions whose major and minor parts disagree |
| Repositories.AsIsNonePrefixAsWritten | muddled/repository.py:357-384 | as written, an as-is prefix never given puts the word 'None' into the URL, unlike an empty prefix |
| Repositories.NonePrefixIgnored | muddled/repository.py:357-384 | corrected: an unset prefix and an empty one give the same URL, and an as-is prefix then runs base and name together |
| Repositories.DefaultPathShape | muddled/repository.py:357-384 | with a base not ending in '/' and relative parts, the URL is base/prefix/name/inner followed by the suffix |
| Repositories.GoogleCodeUrl | muddled/repository.py:612-646 | refuses exactly other VCSs, every extra part and (as an IndexError) an empty base; 'default' is the project URL and any other name project.name, the base losing one trailing '/' |
| Repositories.New | muddled/repository.py:158-264 | a true non-string revision is refused; every part is kept; without a handler the URL is default_path's, and an unregistered handler is refused |
| Repositories.GuessedHandler | muddled/repository.py:158-264 | 'guess' picks the code.google.com handler exactly for git URLs on that host, and otherwise the URL is built from the parts |
| Repositories.GoogleCodeRepositories | muddled/repository.py:158-264 | on code.google.com a prefix is refused, 'default' is the project URL and any other name is project.name |
| Repositories.KeyLessIsOrder | muddled/repository.py:334-346 | comparison is a strict total order on (vcs, url, branch, revision, push, pull) |
| Repositories.KeyLessTotal | muddled/repository.py:334-346 | of two different keys exactly one comes first |
| Repositories.KeyLessTransitive | muddled/repository.py:334-346 | the order is transitive |
| Repositories.SortKeys | muddled/repository.py:334-346 | sorting repositories gives a sorted permutation of them |
| Repositories.InsertKey | muddled/repository.py:334-346 | inserting into a sorted list keeps it sorted and adds exactly that key |
| Repositories.CopyWithChanges | muddled/repository.py:496-554 | a copy on the same VCS with the new name; prefix, suffix, inner path, push and pull kept unless given; revision and branch never carried over |
| Repositories.CopyDropsRevisionAndBranch | muddled/repository.py:496-554 | a copy with only a new name compares equal to the original only when neither had a revision or branch |
| Repositories.CopyWithChangedRevision | muddled/repository.py:556-578 | the copy differs in its revision alone, and equals the original exactly when the revision is unchanged |
| Repositories.SameIgnoringRevisionIsSame | muddled/repository.py:348-355 | same_ignoring_revision holds exactly when the two compare equal once their revisions are made alike |
| Repositories.CopyWithChangedBranch | muddled/repository.py:580-610 | the copy has the given branch and revision and keeps VCS, URL, push and pull |
| Repositories.BranchCopyDiffersInBranch | muddled/repository.py:580-610 | a branch copy with its revision restored equals the original exactly when the branch is unchanged |
| Db.CheckoutLocationShape | muddled/db.py:80-92 | a checkout's location is src/dir/leaf, or src/leaf without a directory |
| Db.CheckoutData.constructor | muddled/db.py:80-92 | new checkout data keeps VCS, repository, directory and leaf, has the src location and no options |
| Db.CheckoutData.MoveToSubdomain | muddled/db.py:102-106 | the location moves under the sub-domain's directory exactly when that directory can be named; nothing else changes |
| Db.CheckoutData.SetOption | muddled/db.py:108-128 | an option is set exactly when the VCS allows it and the value is a bool, int or string; otherwise a GiveUp with nothing changed |
| Db.MovedCheckoutLocation | muddled/db.py:102-106 | in sub-domain d the location becomes domains/d/ followed by the old location |
| Db.NormaliseToKey | muddled/depend.py:1835-1865 | a checkout label normalises to its key (domain and name, tag '*'); any other label is refused |
| Db.SharedEntry | muddled/db.py:742-755 | two checkout labels share one entry exactly when their domain and name agree |
| Db.StarKey | muddled/db.py:1070-1073 | the key of a licence exemption is the label with tag '*', the label itself when it already has it |
| Db.SelectUpstreams | muddled/db.py:1175-1189 | the loop over the sorted upstream repositories keeps exactly those selected by the names, in order |
| Db.AddedUpstreamListed | muddled/db.py:1117-1189 | an upstream repository just added is reported by an unfiltered query with the names it was added with |
| Db.Database.constructor | muddled/db.py:432-467 | a new database has empty tables |
| Db.Database.SetCheckoutData | muddled/db.py:742-746 | data is filed under the checkout label's key; a non-checkout label is a MuddleBug; other tables unchanged |
| Db.Database.GetCheckoutData | muddled/db.py:748-755 | gives the data filed under the label's key; a missing entry is a GiveUp and a non-checkout label a MuddleBug |
| Db.Database.GetCheckoutLocation | muddled/db.py:794-813 | the filed location; 'src' when no label is given |
| Db.Database.GetCheckoutPath | muddled/db.py:769-792 | the filed location under the root; root/src when no label is given |
| Db.Database.GetCheckoutDirAndLeaf | muddled/db.py:815-821 | the filed directory and leaf, exactly when the checkout is known |
| Db.Database.GetCheckoutRepo | muddled/db.py:846-854 | the filed repository, exactly when the checkout is known |
| Db.Database.GetCheckoutVcsOptions | muddled/db.py:891-905 | the filed options, exactly when the checkout is known |
| Db.Database.SetCheckoutVcsOption | muddled/db.py:907-912 | sets the option on the filed data under set_option's rules; an unknown checkout is a KeyError |
| Db.Database.SetDomainBuildDescLabel | muddled/db.py:914-920 | the checkout's key is filed under its domain, the empty domain counting as the top level |
| Db.Database.GetDomainBuildDescLabel | muddled/db.py:936-958 | the filed label, exactly when the domain has one; otherwise a GiveUp |
| Db.Database.MergeDomainInformation | muddled/db.py:654-680 | a sub-build whose own entry names another domain is a MuddleBug; the merge succeeds exactly when every sub-build label agrees with the table, which then gains the missing domains |
| Db.Database.GetLicenseNotAffectedBy | muddled/db.py:1082-1099 | the checkout keys registered for the label with tag '*', none when nothing is |
| Db.Database.SetLicenseNotAffectedBy | muddled/db.py:1034-1080 | refuses a first label that is no package or checkout and a second that is no checkout; otherwise adds the checkout key to the label's set |
| Db.Database.SetNothingBuildsAgainst | muddled/db.py:1101-1107 | adds the checkout's key to the set; a non-checkout label is refused |
| Db.Database.GetNothingBuildsAgainst | muddled/db.py:1109-1113 | true exactly when a checkout with the same domain and name was registered |
| Db.Database.AddUpstreamRepo | muddled/db.py:1117-1151 | refuses no names, a non-name and an upstream already registered; otherwise records the upstream with its names |
| Db.Database.GetUpstreamRepos | muddled/db.py:1153-1189 | nothing for an unknown repository; otherwise every upstream sharing a name with the filter (all when none), in sorted order with sorted names |
| Db.ExemptionIsPerLabel | muddled/db.py:1034-1099 | registering an exemption for one label adds it to that label's set and changes no other label's set |
| Db.MergeLabels | muddled/db.py:669-680 | the merging loop succeeds exactly when the labels agree with the table and each other, giving the table extended by their domains |
| Db.Clash | muddled/db.py:669-680 | a label that disagrees with the table being built shows the whole set disagrees |
| Db.TagFileName | muddled/db.py:1374-1398 | at the top level the tag file is root/.muddle/tags/type/name/leaf; in a domain it exists exactly when the domain directory can be named |
| Db.TagFileShape | muddled/db.py:1374-1392 | at the top level, a label's tag file is root/.muddle/tags/type/name/tag, or .../role-tag |
| Db.TagFilesDiffer | muddled/db.py:1374-1392 | labels differing only in tag have different tag files |
| Db.InstructionFileDir | muddled/db.py:1342-1350 | without a domain, root/.muddle/instructions |
| Db.InstructionFileName | muddled/db.py:1352-1371 | only packages have one (otherwise a MuddleBug): dir/name/role.xml, or _default.xml without a role |
| Db.InstructionLeafDistinct | muddled/db.py:1361-1364 | two roles share an instruction file only when equal, or when one is '_default' and the other unset |
| Db.FirstLine | muddled/db.py:1910-1934 | readline gives a non-empty prefix of non-empty content |
| Db.ReadValue | muddled/db.py:1910-1934 | the value read is the first line without its newline; empty content fails |
| Db.WrittenValueReadBack | muddled/db.py:1910-1954 | a one-line value written by commit is read back as itself |
| Db.PathFile.constructor | muddled/db.py:1858-1864 | a new PathFile has no valid cached value |
| Db.PathFile.Set | muddled/db.py:1903-1908 | the value becomes the valid cached value |
| Db.PathFile.Get | muddled/db.py:1866-1876 | a valid cached value is returned as is; otherwise the file is read and its value cached |
| Db.PathFile.FromDiscCached | muddled/db.py:1910-1934 | reads the file, caching and returning its value; a missing or empty file is a GiveUp with the cache unchanged |
| Db.PathFile.Commit | muddled/db.py:1936-1954 | nothing unless the value is valid; None removes the file; a string is written with a newline |
| Db.FromDisc | muddled/db.py:1910-1934 | succeeds exactly for an existing non-empty file, with a value; otherwise a GiveUp |
| Db.GetIfItExists | muddled/db.py:1878-1901 | a missing file gives None; otherwise as from_disc |
| Db.CommitThenRead | muddled/db.py:1878-1954 | a value set and committed is what a fresh PathFile reads; a None committed leaves no file |
| Cpio.DirModeIsDir | muddled/cpiofile.py:39-72 | the directory mode made for a missing directory is a directory, the default file mode is not |
| Cpio.PathSplitParts | muddled/cpiofile.py:249-255 | the tail of os.path.split has no '/', and follows the head's slash in the path |
| Cpio.DirnameShorter | muddled/cpiofile.py:164-211 | a path with anything but slashes has a strictly shorter directory name, so climbing to the parent directories ends |
| Cpio.PathSplitExamples | muddled/cpiofile.py:249-255 | '/a/b' splits into '/a' and 'b', and 'a' into '' and 'a' |
| Cpio.File.constructor | muddled/cpiofile.py:39-72 | a new file has inode 0, the default mode, uid and gid 0, one link, the current time, no name, data or children |
| Cpio.File.DeleteChildWithName | muddled/cpiofile.py:74-78 | exactly the first child with that name is removed, the others kept in order; nothing when there is none |
| Cpio.File.Rename | muddled/cpiofile.py:81-82 | the file takes the name |
| Cpio.File.SetContents | muddled/cpiofile.py:84-86 | the data is the given text and no original file is named |
| Cpio.File.SetContentsFromFile | muddled/cpiofile.py:88-90 | the original file is named and no data is held |
| Cpio.FirstNamed | muddled/cpiofile.py:74-78 | the position of the first child with the name, or the number of children when none has it |
| Cpio.DeleteFirstNamed | muddled/cpiofile.py:74-78 | removing the first child with a name leaves one child fewer: those before it and those after it, in order |
| Cpio.Hierarchy.constructor | muddled/cpiofile.py:114-120 | the hierarchy holds the given files and roots |
| Cpio.Hierarchy.ParentFromKey | muddled/cpiofile.py:249-255 | the file of a name's directory, exactly when the hierarchy has it |
| Cpio.Hierarchy.PutTargetFile | muddled/cpiofile.py:257-275 | the file is renamed; it is filed and appended to its directory's children exactly when the directory is there; otherwise a GiveUp with the map unchanged |
| Cpio.Hierarchy.Merge | muddled/cpiofile.py:122-162 | the map becomes the union of both, the other's entries winning; it succeeds exactly when every parent is a directory, and then each file is a root or a child of its directory |
| Cpio.Hierarchy.Rebuild | muddled/cpiofile.py:140-160 | the rebuild succeeds exactly when every parent of a file is a directory, placing each file as a root or as a child of its directory |
| Cpio.Hierarchy.Normalise | muddled/cpiofile.py:164-211 | at most one root is left; the map only gains new directories, each named after its key; every old root is placed under its directory |
| Cpio.Hierarchy.EraseTarget | muddled/cpiofile.py:226-246 | the file map is kept and roots are only removed; on success the file is no longer a root; children only shrink |
| Cpio.Hierarchy.Render | muddled/cpiofile.py:214-224 | a rendered hierarchy is the archive text of the entries of the files traced from each root, root by root, in pre-order; it is aligned to four bytes and ends with the trailer |
| Cpio.NormalisePlan | muddled/cpiofile.py:164-211 | normalise's passes leave at most one root, only add fresh directories and place every old root under its directory |
| Cpio.PassPlan | muddled/cpiofile.py:176-211 | one pass makes each root's missing directory, makes it a root, and records the root as that directory's child |
| Cpio.MakeDir | muddled/cpiofile.py:193-200 | the directory made is fresh, mode 0755 with the directory bit, named after the directory, without children |
| Cpio.FindDir | muddled/cpiofile.py:184-203 | a root's directory, made and made a new root when the map lacks it |
| Cpio.AppendChildren | muddled/cpiofile.py:196-203 | each file's gathered children are appended after those it has, modes and names kept |
| Cpio.Layout | muddled/cpiofile.py:147-160 | the roots are the files whose directory is absent or themselves; the layout succeeds exactly when every parent is a directory, each file then being a root or a child |
| Cpio.TraceFiles | muddled/cpiofile.py:506-513 | the file and its descendants are appended after what was listed, each directory before what lies below it |
| Cpio.HexDigitsRoundTrip | muddled/cpiofile.py:594-607 | the hexadecimal digits of a number read back as that number |
| Cpio.HexDigitsShort | muddled/cpiofile.py:594-607 | a value below 16^k has at most k digits |
| Cpio.Hex8RoundTrip | muddled/cpiofile.py:594-607 | '%08X' reads back as the value and is eight digits long for a 32-bit value |
| Cpio.HeaderValues | muddled/cpiofile.py:594-605 | the header carries twelve values after the magic, the last being the name size with its NUL |
| Cpio.Padded | muddled/cpiofile.py:617-630 | padding keeps the text and adds fewer than four NULs to reach a multiple of four |
| Cpio.EntryAligned | muddled/cpiofile.py:612-630 | every entry keeps the archive aligned to four bytes |
| Cpio.EntriesTextAligned | muddled/cpiofile.py:555-630 | an archive of whole entries is aligned to four bytes |
| Cpio.ArchiveEndsWithTrailer | muddled/cpiofile.py:551-553 | every archive ends with the TRAILER!!! entry and is aligned to four bytes |
| Cpio.EntryOf | muddled/cpiofile.py:555-581 | an entry is made exactly for a named file whose original file, if any, exists, and carries its name |
| Cpio.EntriesOf | muddled/cpiofile.py:555-581 | the entries of a list of files, one per file |
| Cpio.EntriesFail | muddled/cpiofile.py:555-581 | one file that cannot be rendered fails the whole archive |
| Cpio.Archive.constructor | muddled/cpiofile.py:525-526 | a new archive has no files |
| Cpio.Archive.AddFile | muddled/cpiofile.py:529-537 | the file is appended |
| Cpio.Archive.Render | muddled/cpiofile.py:544-641 | succeeds exactly when every file can be rendered, giving each file's entry then the trailer, aligned to four bytes |
| Cpio.FieldsLayout | muddled/cpiofile.py:594-605 | values below 2^32 make eight-digit fields, each read back as its value |
| Cpio.HeaderLayout | muddled/cpiofile.py:593-607 | a header is 110 characters: the magic 070701, twelve fields that read back as the values (name size included), and a zero check field |
| Cpio.NameTerminated | muddled/cpiofile.py:612-614 | after the header comes the name and its terminating NUL |
| Licenses.NewLicense | muddled/licenses.py:36-66 | a licence is made exactly for a known category (otherwise a GiveUp), keeps its name, category and version, and neither is a GPL nor propagates |
| Licenses.NewGpl | muddled/licenses.py:235-315 | a GPL licence is open and distributed as source; it propagates exactly without the exception, and is an LGPL exactly when lesser |
| Licenses.CategoryPartition | muddled/licenses.py:96-171 | every licence falls in exactly one of open-not-GPL, GPL, proprietary source, binary and private; source distribution means neither binary nor private; only a GPL propagates |
| Licenses.Equal | muddled/licenses.py:81-84 | licences are equal when name, category and version agree and, for GPLs, the exception too; comparing a GPL with a plain licence of the same parts fails on the missing attribute |
| Licenses.EqualHashesAlike | muddled/licenses.py:81-87 | equality is reflexive and symmetric, and equal licences hash alike |
| Licenses.CopyWithVersion | muddled/licenses.py:89-94 | the copy has the new version and every other property of the original |
| Licenses.GplHashIgnoresVersion | muddled/licenses.py:271-277 | a GPL's hash ignores the version, and the copy equals the original exactly when the version is unchanged |
| Licenses.Open | muddled/licenses.py:220-233 | an open licence is open, not a GPL, and does not propagate |
| Licenses.Lookup | muddled/licenses.py:316-384 | a key found in the table is there with that value; a key not found is not in it |
| Licenses.Standard | muddled/licenses.py:316-384 | every standard licence is valid; only the GPL and Lesser GPL entries propagate and every LGPL does; the GPL-with-exception entries are exactly those of the exception table |
| Licenses.SetThenGet | muddled/licenses.py:420-483 | setting a checkout's licence changes what is looked up for that domain and name alone |
| Licenses.LicenseTable.constructor | muddled/db.py:960-1032 | a new table has no licences and no licence files |
| Licenses.LicenseTable.SetCheckoutLicense | muddled/db.py:960-962 | filed under the checkout's key; a non-checkout label is a MuddleBug with nothing changed |
| Licenses.LicenseTable.GetCheckoutLicense | muddled/db.py:987-1002 | the licence filed for the checkout; a missing one is None or a GiveUp as asked; a non-checkout label is a MuddleBug |
| Licenses.LicenseTable.CheckoutHasLicense | muddled/db.py:1004-1009 | true exactly when a licence is filed for the checkout |
| Licenses.LicenseTable.SetCheckoutLicenseFile | muddled/db.py:1011-1015 | filed under the checkout's key; a non-checkout label changes nothing |
| Licenses.LicenseTable.GetCheckoutLicenseFile | muddled/db.py:1017-1032 | the licence file filed for the checkout; a missing one is None or an error as asked |
| Licenses.CheckoutOf | muddled/licenses.py:420-456 | a checkout given by label is used as is; a name makes the top-level checkout label exactly when it is a valid name |
| Licenses.Resolve | muddled/licenses.py:420-456 | a licence is used as is; a mnemonic is looked up among the standard licences and fails when unknown |
| Licenses.SetLicense | muddled/licenses.py:420-456 | succeeds exactly when the checkout and licence resolve; then the licence is filed, the file when given, and the checkout marked as not built against when asked |
| Licenses.AssignedSees | muddled/licenses.py:458-472 | after assigning one licence to a list of names, each named checkout has it and every other keeps its own |
| Licenses.SetLicenseForNames | muddled/licenses.py:458-472 | a single string is refused; otherwise every valid name gets the resolved licence, nothing else changing |
| Licenses.CheckoutsWhere | muddled/licenses.py:540-750 | the checkouts, with tag '*', whose licence is in the asked-for class |
| Licenses.SelectionsRelate | muddled/licenses.py:553-593 | open checkouts are the GPL ones and the open-not-GPL ones; binary, private and GPL checkouts are pairwise apart |
| Licenses.GetNotLicensedCheckouts | muddled/licenses.py:540-551 | exactly the checkouts with no licence |
| Licenses.CheckoutLicenseAllowed | muddled/licenses.py:752-765 | a checkout is allowed exactly when it has no licence or one in the given categories |
| Licenses.GetLicenseClashes | muddled/licenses.py:767-793 | the implicit GPL checkouts that are binary, and those that are private, the two sets disjoint |
| Licenses.Wildcarded | muddled/licenses.py:641-662 | the checkout with tag '*' |
| Licenses.AddIfNotUsOrGpl | muddled/licenses.py:641-662 | adds the checkout with tag '*' and the reason exactly when it is not the GPL checkout itself and not under a GPL |
| Licenses.AddPackage | muddled/licenses.py:683-704 | every checkout a package is built from is added, unless the package is exempted from the GPL checkout |
| Licenses.AddSource | muddled/licenses.py:678-712 | each dependent of the GPL checkout adds its checkouts as the rules say |
| Licenses.GetImplicitGplCheckouts | muddled/licenses.py:595-714 | fails exactly when a propagating GPL checkout's dependents cannot be found; otherwise the checkouts the GPL propagates to, each with why |
| Licenses.ImplicitIsSound | muddled/licenses.py:595-714 | every implicit GPL checkout is a checkout with tag '*', not itself under a GPL, and comes from a propagating GPL checkout |
| Licenses.NoSourcesNoImplicit | muddled/licenses.py:595-714 | with no propagating GPL checkout, nothing is implicitly GPL |
| VersionStamps.MaybeSetOption | muddled/version_stamp.py:236-240 | the option is set to the value only when there is one; every other option is kept |
| VersionStamps.MaybeGetOption | muddled/version_stamp.py:242-255 | the option's text exactly when present, removed from the section when asked, the rest kept |
| VersionStamps.GetAndRemoveOption | muddled/version_stamp.py:257-262 | the option's text and the section without it; a missing option is ConfigParser's error |
| VersionStamps.SetThenGetOption | muddled/version_stamp.py:236-262 | what maybe_set_option writes maybe_get_option reads back, and removing it restores the section |
| VersionStamps.MatchEnd | muddled/version_stamp.py:1024 | where the release-name pattern's match ends, at least one character in |
| VersionStamps.AllowedIff | muddled/version_stamp.py:1024-1084 | a release name or version is accepted exactly when it starts with an ASCII letter or digit and goes on with letters, digits, '.', '_' or '-' |
| VersionStamps.PlaceholderRefused | muddled/version_stamp.py:1237-1248 | the placeholder written for a missing name is never an acceptable name |
| VersionStamps.RefusedFirst | muddled/version_stamp.py:1053-1065 | a value not starting with a letter or digit is refused |
| VersionStamps.CheckNamed | muddled/version_stamp.py:1053-1084 | None or an allowed string is kept; anything else is a GiveUp |
| VersionStamps.CheckChoice | muddled/version_stamp.py:1091-1116 | None gives the first allowed value, an allowed value is kept, anything else is a GiveUp |
| VersionStamps.MakeSpec | muddled/version_stamp.py:1031-1036 | a release specification is made exactly when every setter accepts its argument, and is then valid and holds them |
| VersionStamps.ReleaseSpec.constructor | muddled/version_stamp.py:1031-1036 | with no arguments: no name or version, tar and gzip, no hash |
| VersionStamps.ReleaseSpec.SetName | muddled/version_stamp.py:1053-1065 | the name is set exactly when None or allowed; otherwise a GiveUp and the name kept |
| VersionStamps.ReleaseSpec.SetVersion | muddled/version_stamp.py:1072-1084 | the version is set exactly when None or allowed; otherwise a GiveUp and the version kept |
| VersionStamps.ReleaseSpec.SetArchive | muddled/version_stamp.py:1091-1100 | the archive is set (None meaning tar) exactly when allowed; otherwise a GiveUp and the archive kept |
| VersionStamps.ReleaseSpec.SetCompression | muddled/version_stamp.py:1107-1116 | the compression is set (None meaning gzip) exactly when allowed; otherwise a GiveUp and the compression kept |
| VersionStamps.NewReleaseSpec | muddled/version_stamp.py:1031-1036 | a fresh valid specification holding the arguments, exactly when they are all accepted |
| VersionStamps.ReleaseSection | muddled/version_stamp.py:1235-1251 | the RELEASE section holds name, version, archive and compression |
| VersionStamps.ReadReleaseSection | muddled/version_stamp.py:1203-1211 | what is read from a RELEASE section is a valid specification |
| VersionStamps.ReleaseSectionRoundTrip | muddled/version_stamp.py:1203-1251 | a specification with name and version reads back as written (less its hash); one without either is written as the placeholder and refused on reading |
| VersionStamps.CheckWriteVersion | muddled/version_stamp.py:556-557 | a stamp is written in version 1 or 2 only; anything else is a GiveUp |
| VersionStamps.CheckReleaseWriteVersion | muddled/version_stamp.py:1227-1229 | a release stamp is written in version 2 only |
| VersionStamps.IntStringParses | muddled/version_stamp.py:757-760 | int() reads back the integer '%d' wrote |
| VersionStamps.StampSection | muddled/version_stamp.py:486-488 | a STAMP section is written exactly from version 2 on |
| VersionStamps.ReadStampVersion | muddled/version_stamp.py:756-771 | no STAMP section is version 1; a STAMP section must say 2; every other case is refused |
| VersionStamps.StampVersionRoundTrip | muddled/version_stamp.py:756-771 | every version the writer accepts (lines 486-488 write it) is read back as written |
| VersionStamps.RootSection | muddled/version_stamp.py:499-504 | the ROOT section holds the repository and description |
| VersionStamps.ReadRootSection | muddled/version_stamp.py:773-776 | the header is read exactly when repository and description are present |
| VersionStamps.RootRoundTrip | muddled/version_stamp.py:773-776 | the header written at lines 499-504 reads back as written, except that an empty branch is not written and comes back as None |
| VersionStamps.Words | muddled/version_stamp.py:540 | str.split() gives whitespace-free non-empty words |
| VersionStamps.WordsOfJoin | muddled/version_stamp.py:540 | splitting words joined by spaces gives the words back |
| VersionStamps.CollapseIdempotent | muddled/version_stamp.py:540 | tidying a problem text twice changes nothing more |
| VersionStamps.CollapseShape | muddled/version_stamp.py:540 | a tidied problem has no whitespace but single spaces between words, none at either end |
| VersionStamps.WrittenProblems | muddled/version_stamp.py:534-541 | one written value per problem |
| VersionStamps.WrittenProblemsTidy | muddled/version_stamp.py:534-541 | every written problem is already tidy |
| VersionStamps.ParseOption | muddled/version_stamp.py:1321-1352 | an option~K = T:V entry gives K and V as a T for int, bool and str; a value without a colon or with another type is a GiveUp |
| VersionStamps.ParseTyped | muddled/version_stamp.py:1321-1352 | the typed part gives an int, a bool or the text itself as the type name says |
| VersionStamps.SplitsAtColon | muddled/version_stamp.py:1321-1352 | a value is split at the colon after its type name |
| VersionStamps.OptionRoundTrip | muddled/version_stamp.py:1321-1352 | an option written to a stamp at lines 447-456 is read back with its name and value; None comes back as the text 'None' |
| VersionStamps.CompareOne | muddled/version_stamp.py:899-975 | a checkout in both stamps is changed exactly when only its revision differs, and every other difference is a problem |
| VersionStamps.ReportStep | muddled/version_stamp.py:898-987 | considering one more checkout adds its contribution to the report |
| VersionStamps.CompareLabel | muddled/version_stamp.py:898-987 | the loop body gives exactly one checkout's contribution |
| VersionStamps.CompareCheckouts | muddled/version_stamp.py:844-989 | the report is the comparison of the two stamps: deleted, new, changed and problems |
| VersionStamps.OptionsEqSymmetric | muddled/version_stamp.py:951 | comparing option sets is symmetric |
| VersionStamps.CompareWithItself | muddled/version_stamp.py:844-989 | a stamp compared with itself reports nothing |
| VersionStamps.DeletedOrNew | muddled/version_stamp.py:976-987 | a checkout is deleted exactly when only the first stamp has it, and new exactly when only the second does |
| VersionStamps.OnlyRevisionChanged | muddled/version_stamp.py:905-911 | a checkout that differs only in revision is reported changed, with both revisions |
| VersionStamps.CompareSwapped | muddled/version_stamp.py:844-989 | comparing the other way round swaps deleted and new and the two revisions of each change, and finds the same problems |
| VersionControl.BranchToFollow | muddled/version_control.py:287-340 | no following without a build description or with following off; a checkout naming a revision or branch keeps its own; a shallow checkout or a VCS without branches that should follow is a GiveUp; otherwise the build description's branch |
| VersionControl.FollowsBuildDescBranch | muddled/version_control.py:287-340 | when following is on and nothing else decides, the checkout follows the build description's branch |
| VersionControl.OwnChoice | muddled/version_control.py:800-854 | without following: the checkout's revision (on its branch), else its branch, else master |
| VersionControl.Sync | muddled/version_control.py:735-854 | with no build description the lookup fails; without syncing nothing moves; the build description itself moves only when not following; a following checkout moves to the followed branch |
| VersionControl.SyncGoesWhereFollowed | muddled/version_control.py:735-854 | a checkout put on a branch by branch_to_follow is moved by sync to that branch |
| VersionControl.SyncStaysWhereRefused | muddled/version_control.py:735-854 | where branch_to_follow refuses, sync does nothing |
| VersionControl.SyncToRevision | muddled/version_control.py:735-854 | a checkout naming a revision goes to that revision on its own branch |
| VersionControl.SyncToBranch | muddled/version_control.py:735-854 | a checkout naming a branch and no revision goes to that branch |
| VersionControl.SyncDefaultsToMaster | muddled/version_control.py:735-854 | with no revision, branch or following, a checkout that may move goes to master |
| VersionControl.OperationRepo | muddled/version_control.py:385-527 | pull and push act on the repository given with an upstream name when both are given, else the checkout's own |
| VersionControl.PullingRepo | muddled/version_control.py:385-425 | a repository that may not be pulled is a GiveUp; a followed branch replaces branch and revision; otherwise the repository as is |
| VersionControl.PushingRepo | muddled/version_control.py:481-527 | a repository that may not be pushed is a GiveUp; a push needs the checkout to be on the followed branch, or on the repository's own branch |
| VersionControl.PullFollowsBranch | muddled/version_control.py:385-425 | a pull with a branch to follow acts on that branch and its head, whatever repository was named |
| VersionControl.VcsRegistry.constructor | muddled/version_control.py:887-895 | a new registry holds nothing |
| VersionControl.VcsRegistry.Register | muddled/version_control.py:887-895 | the handler and documents are filed under the scheme, overwriting any earlier ones |
| VersionControl.VcsRegistry.Instance | muddled/version_control.py:920-926 | the handler of a registered scheme; any other is a MuddleBug |
| VersionControl.VcsRegistry.Docs | muddled/version_control.py:928-934 | the documents of a registered scheme; any other is a GiveUp |
| VersionControl.VcsRegistry.InstanceFromString | muddled/version_control.py:936-946 | '<vcs>+<url>' gives the handler for a registered vcs and the rest; anything else is a MuddleBug |
| VersionControl.RegisteredFound | muddled/version_control.py:887-926 | a scheme just registered is found with the handler given, and other schemes are unaffected |
| VersionControl.CheckoutLeaf | muddled/version_control.py:968-1008 | the leaf given, else the label's name |
| VersionControl.CheckoutFromRepo | muddled/version_control.py:968-1008 | a repository that may not be pulled, an unknown VCS or a non-checkout label is a MuddleBug, the first two changing nothing; otherwise the checkout's data is filed and its rules added |
| Packages.PartOfLetters | muddled/depend.py:712-720 | a non-empty run of lower-case letters and '_' is an acceptable label part |
| Packages.TypesValid | muddled/depend.py:228-233 | the checkout and package types pass the part check |
| Packages.TagsValid | muddled/depend.py:228-233 | the tags used for checkout and package rules pass the part check |
| Packages.NewPackageLabel | muddled/depend.py:135-249 | a package label is made exactly when its name, role and tag are acceptable parts, and otherwise is a GiveUp |
| Packages.CheckedOutLabel | muddled/pkg.py:203-262 | the label with tag checked_out and every other part kept |
| Packages.AddCheckoutRules | muddled/pkg.py:203-262 | the rule set becomes the checkout rules for the label (checked_out, pulled, merged, changes_pushed, changes_committed, all with the action), the pull dependency of changes_committed reaching the set only when its rule is new |
| Packages.CheckoutTagsDiffer | muddled/pkg.py:203-262 | the five checkout rules carry five different tags |
| Packages.FreshRules | muddled/pkg.py:203-262 | on a rule set without them, the five rules are filed as built |
| Packages.CheckoutRulesFresh | muddled/pkg.py:203-262 | on a rule set without them, exactly the standard rules are filed and nothing else changes: checked_out with none, transient pulled and merged on checked_out, transient changes_pushed with none, and transient changes_committed on pulled exactly when the VCS must pull before committing |
| Packages.AddRuleGrows | muddled/pkg.py:203-262 | adding a rule keeps every target and dependency already filed |
| Packages.AddOtherRule | muddled/pkg.py:203-262 | adding a rule leaves the rules of other targets as they are |
| Packages.FiledCommittedRule | muddled/pkg.py:246-262 | a committed rule already filed keeps the dependencies it had |
| Packages.CommittedRuleKeptWithoutPull | muddled/pkg.py:246-262 | when a committed rule is already filed without the pull dependency, the dependency does not reach the rule set |
| Packages.PackageDependsOnCheckout | muddled/pkg.py:264-303 | the rules are added exactly when checkout, package and role are acceptable; otherwise a GiveUp with nothing changed |
| Packages.PackageNeedsCheckout | muddled/pkg.py:264-303 | afterwards the package's preconfig and clean rules depend on the checkout, and every earlier dependency stays |
| Packages.DependencyAdded | muddled/pkg.py:305-323 | one more dependency is added to the package's rule as the loop goes |
| Packages.PackageDependsOnPackages | muddled/pkg.py:305-323 | every package named becomes a postinstalled dependency of the package's rule, exactly when all names are acceptable; otherwise a GiveUp |
| Packages.AddPackageRules | muddled/pkg.py:327-364 | the chain preconfig, configured, built, installed, postinstalled is added, exactly when name and role are acceptable |
| Packages.PackageStagesInOrder | muddled/pkg.py:327-364 | each stage depends on the one before it |
| Packages.RoleList | muddled/pkg.py:404-405 | a single role name stands for the list of that one role |
| Packages.DependRole | muddled/pkg.py:409-419 | the inner loop adds each dependency for one role, exactly when every pair is acceptable |
| Packages.DoDepend | muddled/pkg.py:388-419 | the rules for every role and dependency are added exactly when all are acceptable; otherwise a GiveUp |
| Packages.DependRoles | muddled/pkg.py:408-419 | the outer loop over the roles gives the same rules |
| Packages.RoleDepsDepend | muddled/pkg.py:409-419 | each pair's rule gets its dependency and earlier rules keep theirs |
| Packages.DependAllDepends | muddled/pkg.py:388-419 | every role's preconfig depends on each named package's postinstalled, in the pair's role or, without one, in the same role |
| Packages.BuildCheckoutLabel | muddled/pkg.py:68-99 | building a checkout label runs the VCS operation its tag names; only checking out, or a pull or merge that changed something, records it as just pulled; commit and push skip a checkout not checked out; an unknown tag is a MuddleBug |
| Packages.JustPulledOnChange | muddled/pkg.py:68-99 | a label is recorded as just pulled exactly when it was checked out, or pulled or merged with a change |
| Deployments.NamesValid | muddled/depend.py:228-233 | the deployment and package types and the tags used here pass the part check |
| Deployments.NewDeploymentLabel | muddled/depend.py:135-249 | a deployment label is made exactly when its name and domain are acceptable; otherwise a GiveUp |
| Deployments.NewAnyPackageLabel | muddled/depend.py:135-249 | the label of every package in a role is made exactly when the role and domain are acceptable; otherwise a GiveUp |
| Deployments.CleanDeployment | muddled/deployment.py:20-31 | the clean builder accepts exactly deployment labels tagged clean or distclean, killing the same label tagged deployed; anything else is a GiveUp |
| Deployments.RegisterCleanup | muddled/deployment.py:34-47 | the deployment's clean label gets a rule running the clean builder; an unacceptable name is a GiveUp with nothing changed |
| Deployments.CleanupRuleRuns | muddled/deployment.py:20-47 | the rule filed runs the clean builder, which accepts its target and kills the deployment's deployed label |
| Deployments.PreconfigRules | muddled/deployment.py:50-73 | one rule per role |
| Deployments.PkgDependsOnDeployment | muddled/deployment.py:50-73 | the package's preconfig in each role depends on the deployment, exactly when every part is acceptable; otherwise a GiveUp |
| Deployments.PreconfigsDependOnDeployment | muddled/deployment.py:50-73 | afterwards every role's preconfig depends on the deployment and earlier rules keep their dependencies |
| Deployments.RoleDependsOnDeployment | muddled/deployment.py:76-91 | every package's preconfig in the role depends on the deployment, exactly when every part is acceptable; otherwise a GiveUp with nothing changed |
| Deployments.RoleLabelAdded | muddled/deployment.py:93-110 | one more role's postinstalled label is added to the deployed rule as the loop goes |
| Deployments.DeploymentDependsOnRoles | muddled/deployment.py:93-110 | the deployment depends on every role's postinstalled packages, exactly when the name, roles and domain are acceptable |
| Deployments.DeploymentDependsOnDeployment | muddled/deployment.py:112-126 | one deployment depends on another, exactly when both names and the domain are acceptable |
| Deployments.DeploymentRuleFromName | muddled/deployment.py:151-167 | the rule of the deployment's deployed label, exactly when it is filed; otherwise a GiveUp |
| Deployments.DependedRuleFound | muddled/deployment.py:93-167 | after deployment_depends_on_roles, the lookup finds the rule and it depends on every role's postinstalled packages |
| FileDeployments.Swept | muddled/deployments/filedep.py:65-81 | each pair keeps its role and gets its domain nested under the new sub-domain |
| FileDeployments.SweptDomainNests | muddled/deployments/filedep.py:65-81 | a swept domain splits into the new sub-domain followed by the parts of the old one |
| FileDeployments.FileDeploymentBuilder.constructor | muddled/deployments/filedep.py:50-63 | a new builder holds the pairs and target directory and waits to be swept |
| FileDeployments.FileDeploymentBuilder.ChangeDomain | muddled/deployments/filedep.py:65-81 | the first change of domain nests every pair's domain and marks the builder swept; later ones change nothing |
| FileDeployments.FileDeploymentBuilder.MarkUnswept | muddled/deployments/filedep.py:83-84 | the next change of domain applies again |
| FileDeployments.Dispatch | muddled/deployments/filedep.py:102-117 | deployed runs deploy, instructionsapplied applies the instructions, any other tag is a GiveUp |
| FileDeployments.NeedRootFor | muddled/deployments/filedep.py:143-160 | the instructions needing root (chown and mknod), exactly when every instruction is known; otherwise a GiveUp |
| FileDeployments.RerunFor | muddled/deployments/filedep.py:169-175 | the second run builds the deployment's instructionsapplied label, under sudo exactly when some instruction needs root |
| FileDeployments.ApplyAll | muddled/deployments/filedep.py:177-196 | every instruction is applied in order when all are known; otherwise those before the first unknown one, then a GiveUp |
| FileDeployments.RoleRule | muddled/deployments/filedep.py:262-270 | the deployed rule depends on one postinstalled label per pair, exactly when every pair is acceptable |
| FileDeployments.DeployWithDomains | muddled/deployments/filedep.py:229-287 | the deployed and instructionsapplied rules are added exactly when the name and pairs are acceptable; otherwise a GiveUp with nothing changed |
| FileDeployments.WithDomain | muddled/deployments/filedep.py:197-228 | every role is paired with the one domain, in order |
| FileDeployments.Deploy | muddled/deployments/filedep.py:197-228 | the roles are paired with the default domain and registered as deploy_with_domains does |
| FileDeployments.WithDomainOk | muddled/deployments/filedep.py:197-228 | those pairs are acceptable exactly when there are no roles, or every role and the domain are |
| FileDeployments.FileDeploymentShape | muddled/deployments/filedep.py:262-277 | afterwards the deployed rule depends on every pair's postinstalled label, a new one on nothing else; a new instructionsapplied rule waits for nothing |
| FileDeployments.TagsDiffer | muddled/deployments/filedep.py:102-117 | deployed, instructionsapplied and clean are different tags |
| Commands.WithAll | muddled/commands.py:95-98 | the map gains exactly the given keys |
| Commands.AddKeys | muddled/commands.py:95-98 | the loop maps every key to the value over the map |
| Commands.Registry.constructor | muddled/commands.py:50-117 | a new registry is empty |
| Commands.Registry.InCategory | muddled/commands.py:72-84 | only the listed categories are accepted (otherwise a GiveUp with nothing changed); a command is appended to its category, a subcommand's main command only starts a new one |
| Commands.Registry.Command | muddled/commands.py:86-105 | a name already defined is a GiveUp; otherwise it is listed and filed in its category, and it and every alias stand for the class |
| Commands.Subcommand | muddled/commands.py:119-143 | a subcommand already defined is a GiveUp, and one under a plain command is a Python error; otherwise it and its aliases are filed under the main command |
| Commands.SubcommandMainUnlisted | muddled/commands.py:77-79 | a further subcommand of query leaves its category list as it was |
| Commands.CommandListed | muddled/commands.py:80-84 | a command is listed last in its category, and no other category changes |
| Commands.SplitExt | muddled/commands.py:2923 | os.path.splitext's two parts make up the path |
| Commands.SplitExtShape | muddled/commands.py:2923 | an extension is one '.' and what follows it in the last component |
| Commands.SplitExtAppended | muddled/commands.py:2923 | a stem followed by one extension splits back into the two |
| Commands.DecideStampFilename | muddled/commands.py:2903-2927 | the name always ends in .stamp (or .partial); without a basename it is the hash with that extension |
| Commands.StemOfStamped | muddled/commands.py:2923-2925 | a stem keeps itself when a stamp extension is added and taken off |
| Commands.RedecideStampFilename | muddled/commands.py:2903-2927 | deciding again on a decided name only swaps the extension |
| Commands.KernelFields | muddled/commands.py:1509-1511 | the three masked and shifted fields are each below 256 |
| Commands.KernelVersion | muddled/commands.py:1503-1512 | a line '#define LINUX_VERSION_CODE n' gives the dotted version of n; anything else is a GiveUp or a Python error |
| Commands.KernelFieldsRoundTrip | muddled/commands.py:1509-1511 | the fields come back from a code a*65536 + b*256 + c |
| Commands.KernelVersionOfLine | muddled/commands.py:1503-1512 | the line version.h carries for a code is read back as that code's version |
| Commands.ExpandPackageLabel | muddled/commands.py:4108-4129 | a label with a role is kept (with the required tag); otherwise one label per default role, or role '*' without default roles |
| Commands.ExpandedTagged | muddled/commands.py:4108-4129 | every label of the expansion carries the required tag and a role, and the name, type and domain of the original |
| Commands.StampSaveArgs | muddled/commands.py:2862-2882 | -f and -h switch each other off, the last one winning; one file name at most; any other switch or word is a GiveUp |
| Commands.Plan | muddled/commands.py:3765-3787 | two steps per label |
| Commands.BuildThenKill | muddled/commands.py:3774-3787 | one round builds the label with tag a then kills it with tag b; the first failure stops it |
| Commands.BuildAKillB | muddled/commands.py:3765-3787 | every label is built with tag a and killed with tag b in order; a failure stops everything after the failing step |
| Commands.FailureKept | muddled/commands.py:3765-3787 | after a failing round, everything before the failing step passed and the whole plan does not pass |
| Commands.PlanPrefix | muddled/commands.py:3774-3787 | the plan for the first labels is a prefix of the whole plan |
| CommandLine.Lookup | muddled/cmdline.py:96-116 | an unknown command is a GiveUp; a plain command takes the arguments as they are; a command with subcommands consumes a known subcommand word and otherwise is a GiveUp |
| CommandLine.CommandFound | muddled/commands.py:86-105 | a command registered with aliases is found under its name and each alias, with the arguments untouched |
| CommandLine.SubcommandFound | muddled/commands.py:119-143 | a subcommand registered with aliases is found from its main command and the subcommand word or an alias, which is consumed |
| CommandLine.Scan | muddled/cmdline.py:208-228 | the option scan fails only with a GiveUp or a Python error |
| CommandLine.ParseOptions | muddled/cmdline.py:208-228 | the option loop computes the scan of the words |
| CommandLine.ScanStops | muddled/cmdline.py:208-232 | the words left are 'help', none, or the words from the first command word on |
| CommandLine.HelpWins | muddled/cmdline.py:210-212 | a help switch wins over every word after it |
| CommandLine.TreeAndNoOp | muddled/cmdline.py:213-222 | --tree takes the next word as the root and -n sets the no-operation flag; scanning goes on |
| CommandLine.UnknownOptionRefused | muddled/cmdline.py:223-224 | any other word starting with '-' is a GiveUp |
| CommandLine.RootArgs | muddled/cmdline.py:130-143 | one word per default deployment and default role |
| CommandLine.DomainArgs | muddled/cmdline.py:144-168 | two words per sub-domain |
| CommandLine.GuessCmdInBuild | muddled/cmdline.py:118-193 | outside a build tree a GiveUp; at the top, buildlabel of the default deployments and every default role's packages, exactly when the roles are acceptable; in a domain root, buildlabel of each sub-domain |
| CommandLine.RootWords | muddled/cmdline.py:130-143 | the words for the top of the tree, exactly when every default role makes a label |
| CommandLine.SubdomainWords | muddled/cmdline.py:144-168 | the words for a sub-domain root, two per domain |
| CommandLine.RoleAccepted | muddled/cmdline.py:140-143 | a role that makes a label adds that label's text to the words |
| CommandLine.RoleRefused | muddled/cmdline.py:140-143 | a role that makes no label refuses the whole list |
| CommandLine.RoleTargetsParse | muddled/cmdline.py:140-143 | every word made for a default role reads back as that role's package label |
| CommandLine.ChooseCommand | muddled/cmdline.py:230-250 | the first word left by the options, else the guess inside a build tree, else help |
| CommandLine.Obey | muddled/cmdline.py:252-262 | in a build tree the command runs with it unless it is refused in a release build; outside, it runs without one unless it needs one |
| Rewrite.ParseLine | muddled/rewrite.py:28-38 | no key exactly when the line has no '='; otherwise a key free of '=' which, joined to the value by '=', gives back the line |
| Rewrite.ParseLineJoin | muddled/rewrite.py:28-38 | a key without '=' and any value read back as that key and value |
| Rewrite.Collapse | muddled/rewrite.py:78 | replacing '//' by '/' never lengthens the text |
| Rewrite.CollapseShortens | muddled/rewrite.py:78 | collapsing changes the text exactly when it holds a double slash, and then shortens it |
| Rewrite.StripSlashes | muddled/rewrite.py:80 | a prefix of the path that does not end in '/' |
| Rewrite.Dirname | muddled/rewrite.py:80 | a prefix of the path, empty when the path has no '/' |
| Rewrite.DirnameOfJoin | muddled/rewrite.py:80 | the directory part of a directory joined to a plain name is that directory |
| Rewrite.RewriteDep | muddled/rewrite.py:71-90 | a dependency whose collapsed directory is /lib, //lib, /usr/lib or //usr/lib is put under `dir` and collapsed again; any other is only collapsed |
| Rewrite.RewriteDepLib | muddled/rewrite.py:82-88 | a library in /lib moves under the install directory |
| Rewrite.LibEntryPlain | muddled/rewrite.py:78 | a plain name in /lib has nothing to collapse |
| Rewrite.LibEntryDir | muddled/rewrite.py:80-83 | a plain name in /lib lies in /lib |
| Rewrite.RewriteDepOther | muddled/rewrite.py:89-90 | a dependency outside the library directories, without a double slash, is left alone |
| Rewrite.RewriteDeps | muddled/rewrite.py:71-90 | one rewritten dependency per dependency, in order |
| Rewrite.LaLineCases | muddled/rewrite.py:55-96 | a line without '=' and a key other than libdir or dependency_libs are kept; libdir is set to the library path; dependency_libs fails exactly when its value is blank |
| Rewrite.LaResults | muddled/rewrite.py:55-96 | one result per line of the file |
| Rewrite.Gather | muddled/rewrite.py:55-98 | a successful pass keeps one line per line read |
| Rewrite.GatherEach | muddled/rewrite.py:55-98 | the pass succeeds exactly when every line does, and then keeps their outputs in order |
| Rewrite.GatherFirstError | muddled/rewrite.py:55-98 | the pass fails with the error of the first line that fails |
| Rewrite.FirstErrorFirst | muddled/rewrite.py:55-98 | that error belongs to a line before which every line was rewritten |
| Rewrite.SubstLa | muddled/rewrite.py:41-101 | the loop computes the rewritten .la lines, the library path defaulting to `dir`/lib |
| Rewrite.LaLibdirStable | muddled/rewrite.py:61-64 | rewriting the libdir line a second time changes nothing |
| Rewrite.PcLineCases | muddled/rewrite.py:120-139 | prefix, libdir and exec_prefix are set; includedir is set only when an include path is given; every other line is kept |
| Rewrite.PcLines | muddled/rewrite.py:120-139 | one output line per line of the .pc file |
| Rewrite.SubstPc | muddled/rewrite.py:104-144 | the loop computes the rewritten .pc lines, the library path defaulting to `dir`/lib and the exec prefix to `dir` |
| Rewrite.PcLineStable | muddled/rewrite.py:120-139 | rewriting a rewritten .pc line changes nothing |
| Rewrite.SubstPcIdempotent | muddled/rewrite.py:104-144 | a second run over the .pc file leaves it as the first run wrote it |
| MakePackages.MakefileNameShape | muddled/pkgs/make.py:21-38 | the name starts with the given base (Makefile.muddle by default); it is exactly the base unless per-role makefiles are on and there is a role, and then it ends in '.' and the role; two roles never share a makefile |
| MakePackages.BuildLabel | muddled/pkgs/make.py:105-156 | a missing checkout is a GiveUp and an unknown tag a MuddleBug; preconfig, configure without make config and postinstall without rewriting do nothing; postinstall with rewriting rewrites the object directory; the other tags run make with config, install, clean or distclean |
| MakePackages.RegisteredTagsBuild | muddled/pkgs/make.py:128-153 | every tag of the package chain, plus clean and distclean, builds; two tags that run make never run the same command |
| MakePackages.SimpleRulesInTurn | muddled/pkgs/make.py:192-195 | the rules of `simple` are the package chain added, then the dependency of preconfig on the checkout |
| MakePackages.Simple | muddled/pkgs/make.py:159-196 | registration succeeds exactly when the package, role and checkout names are valid, otherwise a GiveUp; on success the rule set holds the package chain depending on the checkout |
| MakePackages.MediumRole | muddled/pkgs/make.py:220-229 | one role: `simple`, then the package depending on each dependency's tag; a GiveUp exactly when a name is invalid |
| MakePackages.Medium | muddled/pkgs/make.py:198-230 | no dependencies (None) is an empty list; it succeeds exactly when every role's registration does, and then the rule set holds every role's rules added in turn |
| MakePackages.SimpleGrows | muddled/pkgs/make.py:192-195 | `simple` only adds rules and dependencies, never removes one |
| MakePackages.DependsGrows | muddled/pkg.py:305-323 | package_depends_on_packages only adds dependencies |
| MakePackages.RoleRulesWire | muddled/pkgs/make.py:220-229 | the role just handled is wired to its checkout and its dependencies, and what was there before is kept |
| MakePackages.FoldWires | muddled/pkgs/make.py:220-229 | a step that keeps every dependency and wires up its role, applied to each role in turn, wires up all of them |
| MakePackages.MediumWiresEveryRole | muddled/pkgs/make.py:198-230 | after `medium` every role given is wired up and nothing the rule set held before is lost |
| DocReport.Suffixes | muddled/docreport.py:34-41 | one key per dotted suffix of the name's words |
| DocReport.NameKeys | muddled/docreport.py:30-41 | the first key is the whole name, and every key is a suffix of the name |
| DocReport.LastSuffix | muddled/docreport.py:35-41 | the last word alone is among the keys |
| DocReport.FiledSpec | muddled/docreport.py:35-41 | filing an entry under a list of keys adds those keys and puts the entry in exactly their sets, leaving every other set as it was |
| DocReport.AddFindsSuffix | muddled/docreport.py:30-41 | after add("a.b.c", v) the entry is found under the full name and under its last word |
| DocReport.AddKeepsValid | muddled/docreport.py:30-41 | after an add, every set is non-empty and holds only entries whose full name was added and ends with the key |
| DocReport.HashThing.constructor | muddled/docreport.py:26-28 | an empty index and no full names |
| DocReport.HashThing.Add | muddled/docreport.py:30-41 | the name joins the full names and the entry is filed under each suffix key of the name |
| DocReport.HashThing.Get | muddled/docreport.py:43-46 | the set filed under a known key; an unknown key is a KeyError |
| DocReport.Padded | muddled/docreport.py:64 | left-justified: the text followed by spaces up to the width, never cut |
| DocReport.Longest | muddled/docreport.py:52-55 | the length of the longest key, reached by one of them (0 for none) |
| DocReport.LongestOf | muddled/docreport.py:52-55 | the loop computes the longest key length |
| DocReport.HashThing.Dump | muddled/docreport.py:48-65 | one line per key of the index, keys in sorted order, each padded to the longest key and listing every entry under it |
| DocReport.HashThing.LinesFor | muddled/docreport.py:57-64 | one dump line per key, listing exactly the entries under it |
| DocReport.HashThing.Contains | muddled/docreport.py:67-72 | a header, then exactly the indented full names that contain the word, sorted and without repeats |
| DocReport.Report | muddled/docreport.py:74-84 | the report starts with its header |
| DocReport.ReportStep | muddled/docreport.py:76-83 | one more key adds that key's line and one line per entry |
| DocReport.Group | muddled/docreport.py:78-83 | the key line, then one line per entry |
| DocReport.Capitalized | muddled/docreport.py:80 | capitalising keeps the length of the type name |
| DocReport.HashThing.Duplicates | muddled/docreport.py:74-84 | the keys reported are exactly those with more than one entry, in sorted order, each followed by its entries sorted by name |
| DocReport.HashThing.GroupsOf | muddled/docreport.py:76-83 | the groups for the keys with more than one entry, in the order given |
| DocReport.Dups | muddled/docreport.py:76-77 | the keys kept are keys of the index |
| DocReport.DupsSorted | muddled/docreport.py:76-77 | keys taken from a sorted list stay sorted and distinct |
| DocReport.DupsElements | muddled/docreport.py:76-77 | the keys kept are exactly those with more than one entry |
| DocReport.SortedByName | muddled/docreport.py:79 | the entries of a set, each once, sorted by name |
| DocReport.LeastNameExists | muddled/docreport.py:79 | a non-empty set of entries has one with the least name |
| DocReport.IndentInjective | muddled/docreport.py:71 | indenting keeps different names different |
| Bazaar.PruneSpurious | muddled/vcs/bazaar.py:72-89 | the loop computes the text with its spurious lines dropped and the rest joined again |
| Bazaar.KeptConcat | muddled/vcs/bazaar.py:85-87 | lines are kept one by one, so the kept lines keep their order |
| Bazaar.KeptExactly | muddled/vcs/bazaar.py:84-87 | exactly the lines that do not match ".*some compiled extensions" are kept; with none of those, nothing changes |
| Bazaar.KeptNoNewline | muddled/vcs/bazaar.py:82-87 | the kept lines, being lines of the split, hold no newline |
| Bazaar.PrunedIdempotent | muddled/vcs/bazaar.py:72-89 | pruning twice is pruning once, and output with no spurious line passes unchanged |
| Bazaar.NormalisedRepoOnce | muddled/vcs/bazaar.py:91-100 | only a URL starting "ssh:" changes, by "bzr+" put before it; normalising twice is normalising once |
| Bazaar.ROptionRevision | muddled/vcs/bazaar.py:102-112 | empty exactly for no revision or HEAD, otherwise "-r " followed by the revision |
| Bazaar.RefuseBranch | muddled/vcs/bazaar.py:169-171 | a GiveUp exactly when a branch is given |
| Bazaar.BranchRefused | muddled/vcs/bazaar.py:156-264 | checkout, pull and merge are a GiveUp exactly when the repository names a branch, and goto_revision when a branch is given |
| Bazaar.Entry | muddled/vcs/bazaar.py:365-378 | a blank or comment line is a note; a setting with no '=' is a GiveUp; any other line gives a key and value |
| Bazaar.EntryRoundTrip | muddled/vcs/bazaar.py:365-378 | a setting line as reparent writes it reads back as that key and value |
| Bazaar.ValueAsWrittenDropsEquals | muddled/vcs/bazaar.py:374-376 | the value read from `k=a=b` is `ab` as written, where `a=b` is meant |
| Bazaar.ReadBranchConf | muddled/vcs/bazaar.py:360-378 | the reading loop computes the parse of the file |
| Bazaar.ParseConfFails | muddled/vcs/bazaar.py:371-373 | the file fails to read exactly when one of its lines is a setting with no '=', and then with a GiveUp |
| Bazaar.ParseConfPositions | muddled/vcs/bazaar.py:365-378 | one position per line: a note for a blank or comment line, a setting with its key otherwise |
| Bazaar.ParseConfKeyed | muddled/vcs/bazaar.py:374-378 | every setting's key is in the items, with the shape of a stripped key |
| Bazaar.ParseConfKeysFrom | muddled/vcs/bazaar.py:374-378 | every key in the items comes from one of the lines |
| Bazaar.WriteBranchConf | muddled/vcs/bazaar.py:413-423 | the writing loop computes the lines written for the positions |
| Bazaar.WrittenSame | muddled/vcs/bazaar.py:416-423 | positions whose keys keep their values write the same lines |
| Bazaar.Reparent | muddled/vcs/bazaar.py:324-423 | reparent reads the file, decides, and returns the lines it writes, if any |
| Bazaar.DecideWithoutForce | muddled/vcs/bazaar.py:399-411 | without force, a file with a parent location is left alone; otherwise the file is written again with the parent location added at the end |
| Bazaar.ReparentWithoutForce | muddled/vcs/bazaar.py:352-423 | the same for the whole operation, with the remote URL normalised |
| Bazaar.DecideWithForce | muddled/vcs/bazaar.py:381-398 | with force, the file is written; the parent location is set, added at the end if missing; a push location is dropped; every other line is kept |
| Bazaar.ReparentWithForce | muddled/vcs/bazaar.py:352-423 | the same for the whole operation, with the remote URL normalised |
| Subversion.RefuseBranch | muddled/vcs/svn.py:207-208 | a GiveUp exactly when a branch is given |
| Subversion.CheckoutArguments | muddled/vcs/svn.py:65-86 | no revision and HEAD give no -r option, any other revision gives "-r" and it; checkout is a GiveUp exactly when the repository names a branch, and otherwise runs svn checkout with the revision option, the URL and the leaf |
| Subversion.CommitLeavesItToPush | muddled/vcs/svn.py:141-157 | commit runs nothing, push runs svn commit, and a pull must come before a commit |
| Subversion.ConflictColumns | muddled/vcs/svn.py:103-104 | a line shorter than seven characters raises IndexError; otherwise it shows a conflict exactly when column 0, 1 or 6 is 'C' |
| Subversion.CheckColumns | muddled/vcs/svn.py:103-107 | the check passes exactly when every item is clean, and otherwise crashes (the GiveUp message has two %s for one argument) |
| Subversion.Chars | muddled/vcs/svn.py:103 | iterating a string gives its characters, one string each |
| Subversion.ConflictCheckAsWritten | muddled/vcs/svn.py:102-107 | as written the loop walks the characters of the output, so it passes only for empty output and crashes on any other |
| Subversion.ConflictCheck | muddled/vcs/svn.py:94-107 | over the lines of the output: a GiveUp exactly when some line shows a conflict |
| Subversion.Pull | muddled/vcs/svn.py:88-117 | a GiveUp exactly when a branch is named or the status shows a conflict; otherwise svn update with the revision option |
| Subversion.GotoRevision | muddled/vcs/svn.py:195-215 | a branch is a GiveUp, no repository a MuddleBug; otherwise a pull of the repository at that revision |
| Subversion.Judge | muddled/vcs/svn.py:175-182 | a line of seven spaces too short for column 8 raises IndexError; otherwise a line is kept exactly when it is remarkable (not blank, and not seven spaces then a space in column 8) |
| Subversion.FilteredStep | muddled/vcs/svn.py:175-182 | one more judged line is kept or dropped as judged |
| Subversion.FilteredStops | muddled/vcs/svn.py:175-182 | a line that cannot be judged is the error of the whole output |
| Subversion.FilteredExactly | muddled/vcs/svn.py:172-182 | filtering fails exactly when a line is too short, and otherwise keeps exactly the remarkable lines |
| Subversion.Status | muddled/vcs/svn.py:159-193 | the loop computes the status of the output |
| Subversion.StatusOutcome | muddled/vcs/svn.py:166-193 | quick status is the fixed message; a full status fails exactly when a line is too short, and is None exactly when nothing is left to report, a lone "Status against revision" line counting as nothing |
| Subversion.StatusLines | muddled/vcs/svn.py:186-191 | a report is the remarkable lines of the output followed by a blank line |
| Subversion.RevisionToCheckout | muddled/vcs/svn.py:225-243 | a GiveUp for a `before` argument or for svnversion output that is not all digits once stripped; otherwise the stripped output |
| Subversion.RevisionOfSvnversion | muddled/vcs/svn.py:237-243 | a plain revision number is accepted; a number followed by a mark such as M or S is refused |
| Subst.NodeText | muddled/subst.py:23-37 | the direct text of the node, with one trailing newline stripped when there is one |
| Subst.NodeTextAsWrittenMisses | muddled/subst.py:33-35 | as written the test looks at all but the last character, so "abc\n" keeps its newline and "\nx" loses its "x" |
| Subst.NodeTextStripsOneNewline | muddled/subst.py:33-35 | text ending in a newline loses exactly that newline |
| Subst.SplitQuery | muddled/subst.py:62-72 | the components of the query hold no '/' |
| Subst.SplitQueryRoundTrip | muddled/subst.py:62-72 | an absolute query is rebuilt from its components by '/' before and between them |
| Subst.FirstChild | muddled/subst.py:49-53 | the first child element with the given name, and None exactly when no child element has it |
| Subst.FirstMatch | muddled/subst.py:47-53 | the inner loop finds the first child element with the key's name |
| Subst.FindNode | muddled/subst.py:39-60 | the loop follows the first matching child per key, and gives None when a step fails |
| Subst.QueryResultSnoc | muddled/subst.py:46-58 | a query one key longer takes one more step from where the shorter one ended |
| Subst.QueryNoneStays | muddled/subst.py:55-56 | a query that fails on a prefix fails whatever follows |
| Subst.QueryStringValue | muddled/subst.py:74-97 | an empty key gives ""; a key starting '/' gives the text of the node the query finds, or None; any other key gives its environment value, and a GiveUp exactly when it is not set |
| Subst.NextSt | muddled/subst.py:113-145 | a pushed-back character first and the input after it, None exactly at the end with nothing pushed back; the input itself never changes |
| Subst.PeekAndPushBack | muddled/subst.py:113-157 | peek is what next would return; next after push_back(c) gives c and leaves the stream as before |
| Subst.PushbackInputStream.constructor | muddled/subst.py:105-111 | a stream at the start of the input, with nothing pushed back |
| Subst.PushbackInputStream.Next | muddled/subst.py:113-145 | the character and the new state of the stream are those of next() |
| Subst.PushbackInputStream.PushBack | muddled/subst.py:147-149 | only one character is held: pushing again replaces it |
| Subst.PushbackInputStream.Peek | muddled/subst.py:151-157 | the character next() would return, without reading it |
| Subst.SkipWs | muddled/subst.py:473-482 | after skipping, the next character is not whitespace |
| Subst.Doc | muddled/subst.py:365-470 | parse_document reads only forward from where it starts |
| Subst.DocLoop | muddled/subst.py:389-470 | each turn of the state machine reads only forward |
| Subst.Literal | muddled/subst.py:507-513 | parse_literal reads only forward |
| Subst.Param | muddled/subst.py:516-541 | parse_param reads only forward |
| Subst.Params | muddled/subst.py:614-623 | the parameter loop reads only forward |
| Subst.Instr | muddled/subst.py:543-641 | parse_instruction reads only forward |
| Subst.QuotedInstr | muddled/subst.py:561-593 | a quoted literal key reads only forward |
| Subst.FnInstrTail | muddled/subst.py:607-627 | after "fn:", reading the name, parameters and rest only moves forward |
| Subst.Lookup | muddled/subst.py:300-316 | the value of the key, or a GiveUp when an XML query finds no node or the variable is not set |
| Subst.EvalAllConcat | muddled/subst.py:259-290 | nodes that all evaluate give the concatenation of their values, in order |
| Subst.EchoConcatenates | muddled/subst.py:360-363 | fn:echo emits its parameters' values concatenated in order |
| Subst.IfeqIfneq | muddled/subst.py:340-358 | ifeq emits the rest exactly when the stripped value of the query equals the value, and ifneq exactly when it does not |
| Subst.Ifeq | muddled/subst.py:340-358 | ifeq emits the rest when the stripped value of the query equals the value, nothing otherwise |
| Subst.Ifneq | muddled/subst.py:340-358 | ifneq emits the rest when the stripped value of the query differs from the value, nothing otherwise |
| Subst.KeyRouting | muddled/subst.py:300-316 | a '/' key whose node is missing cannot be substituted; any other key succeeds exactly when it is in the environment, with its value |
| Subst.SubstStr | muddled/subst.py:643-666 | the evaluation loop computes the substitution of the text |
| Subst.EvalAllStep | muddled/subst.py:259-290 | evaluating from one node on is evaluating that node, then the rest |
| Subst.DocLoopPlain | muddled/subst.py:389-470 | text that starts no instruction produces one string node holding the scanned text |
| Subst.SubstPlain | muddled/subst.py:643-666 | text that starts no instruction is substituted by its scan |
| Subst.NoDollarUnchanged | muddled/subst.py:424-431 | text without '$' is copied unchanged |
| Subst.Escapes | muddled/subst.py:432-466 | "$${" gives "${"; "$$" and another character give them unchanged; '$' and a character other than '{' or '$' give both; a '$' or "$$" at the end of the input is dropped |
| Subst.PlainPrefix | muddled/subst.py:424-431 | scanning text without '$' only collects it |
| Subst.EscapedInstructionIsLiteral | muddled/subst.py:456-460 | "$${" between '$'-free texts comes out as "${", never as an instruction |
| Subst.DocLoopRunsOut | muddled/subst.py:395-411 | reading name characters while waiting for an end character runs into the end of the input, which is an error |
| Subst.InstrRunsOut | muddled/subst.py:595-600 | an instruction whose name the input ends inside fails |
| Subst.UnterminatedInstruction | muddled/subst.py:399-411 | text followed by "${" and a name that the input ends inside is a GiveUp: the input ends whilst waiting for the end character |
| Subst.DocLoopPlainPrefix | muddled/subst.py:424-431 | reading '$'-free text at the top level only collects it |
| Subst.DocLoopTo | muddled/subst.py:389-470 | text with no '$', backslash or end character, read up to an end character, becomes one string node, and the end character is left to be read |
| Subst.InstrKey | muddled/subst.py:595-641 | after "${", a key followed by '}' parses to the value instruction of that key, and the '}' is left to be read |
| Subst.DocLoopKey | muddled/subst.py:389-470 | after "${", a key, its '}' and '$'-free text give the text read so far, the value instruction of the key and the text after |
| Subst.KeyParsed | muddled/subst.py:643-661 | "${key}" between '$'-free texts parses to the text before, the value instruction of the key and the text after |
| Subst.EvalBetween | muddled/subst.py:259-290 | a node between two strings gives its value between them, or fails with the node's own error |
| Subst.EvalKey | muddled/subst.py:300-316 | the value instruction of a key without surrounding spaces looks up exactly that key |
| Subst.KeySubstituted | muddled/subst.py:643-666 | "${key}" between '$'-free texts is replaced by the key's value; when the key cannot be looked up the substitution fails with that error |
| Subst.InstrQuoted | muddled/subst.py:561-593 | after "${", a quoted key and the '}' after it parse to the value instruction of that key, and the '}' is left to be read |
| Subst.DocLoopQuoted | muddled/subst.py:389-470 | after "${", a quoted key, its '}' and '$'-free text give the text read so far, the value instruction of the key and the text after |
| Subst.QuotedParsed | muddled/subst.py:643-661 | "${"key"}" between '$'-free texts parses to the text before, the value instruction of the key and the text after |
| Subst.QuotedSubstituted | muddled/subst.py:561-593 | "${"key"}" is replaced by the value of the stripped key, which may hold ':' and '}'; a key that cannot be looked up fails the substitution with that error |
| Subst.ParamTo | muddled/subst.py:516-541 | an unquoted parameter is read as one string up to the ',' or ')' after it, which is left to be read |
| Subst.ParamsTo | muddled/subst.py:614-623 | parameters joined by ',' and closed by ')' give one node per parameter, in order, and reading stops just after the ')' |
| Subst.LiteralTo | muddled/subst.py:507-513 | parse_literal on bare text gives that text, with the end character left to be read |
| Subst.FnInstrTailTo | muddled/subst.py:607-627 | after "fn:", a name, parameters in parentheses and the rest give the function instruction with one node per parameter, with the '}' left to be read |
| Subst.InstrFn | muddled/subst.py:595-627 | after "${", "fn:" and a function's text parse to the function instruction, with the '}' left to be read |
| Subst.FnParsed | muddled/subst.py:643-661 | "${fn:name(params)rest}" between '$'-free texts parses to the text before, the function instruction with one node per parameter and the rest, and the text after |
| Subst.Opening | muddled/subst.py:424-437 | at the top level, '$' then '{' move the loop from state 0 through state 1 to the start of an instruction |
| Subst.Closing | muddled/subst.py:443-451 | the '}' the instruction parser leaves is read next, and the '$'-free text after it is collected as one string |
| Subst.PlainTail | muddled/subst.py:424-431 | '$'-free text up to the end of the input at the top level gives exactly one string node holding that text |
| Subst.DocLoopSteps | muddled/subst.py:432-451 | "${", an instruction and '}' followed by plain text give the text so far, the instruction's node and the text after, in that order |
| Subst.ClosedAfter | muddled/subst.py:436-451 | once the instruction has been parsed, the '}' at its end and the '$'-free text after it complete the three nodes of the top level |
| Subst.ParsedSubst | muddled/subst.py:643-666 | a text that parses to a string, one instruction and a string is substituted to the first string, the instruction's value and the second string, or fails with the instruction's error |
| Subst.ValNodeText | muddled/subst.py:300-316 | a value instruction over a text looks up that text stripped of surrounding white space |
| Subst.FnVal | muddled/subst.py:319-338 | fn:val with one parameter looks up the parameter's value stripped of white space and fails as the lookup fails |
| Subst.FnIf | muddled/subst.py:340-358 | fn:ifeq or fn:ifneq with two parameters gives the rest exactly when the stripped value of the query equals the second parameter, or differs from it for ifneq, and the empty text otherwise |
| Subst.ValNode | muddled/subst.py:319-338 | the parsed "fn:val(k)" node evaluates to the lookup of k stripped, whatever the rest of the instruction is |
| Subst.FnValText | muddled/subst.py:643-666 | "${fn:val(k)rest}" between '$'-free texts is replaced by the value of k stripped, or fails as the lookup fails |
| Subst.JoinedAt | muddled/subst.py:614-623 | parameters joined by ',' and followed by ')' lie in the text as the parameter loop reads them, ending at the ')' |
| Subst.ParamStep | muddled/subst.py:516-541 | one unquoted parameter is read up to the ',' or ')' after it, and that separator is the next character read |
| Subst.ParamsRunAt | muddled/subst.py:614-623 | the parameter loop reads each parameter and its separator in turn, going round on ',' and stopping after ')' |
| Subst.RunParams | muddled/subst.py:614-623 | a run of the parameter loop appends one node per parameter, in order, to what was collected before |
| Subst.ParamsFrom | muddled/subst.py:614-623 | the parameter loop started empty gives one node per parameter and stops just after the ')' |
| Subst.RestTo | muddled/subst.py:624-627 | the rest of a function instruction is read as one string up to its '}', which is left to be read |
| Subst.FnHead | muddled/subst.py:607-614 | a function name made of bare text is read as a literal up to '(' and the '(' is consumed |
| Subst.FnBody | muddled/subst.py:613-627 | after '(' the parameters give one node each and the rest up to '}' gives one string node |
| Subst.TailStep | muddled/subst.py:606-627 | a literal name, '(' , the parameter loop and the rest give the function instruction built from those three parts |
| Subst.FnDesignator | muddled/subst.py:599-607 | "fn:" at the start of an instruction is read as the designator "fn" followed by ':' |
| Subst.DocLoopFn | muddled/subst.py:389-470 | the top-level loop over "${fn:name(params)rest}" followed by '$'-free text gives the text so far, the function instruction and the text after |
| Subst.PrefixRead | muddled/subst.py:424-431 | '$'-free text at the start of the input is collected and the loop goes on in state 0 after it |
| Subst.FnParsedAt | muddled/subst.py:643-661 | a text laid out as "${fn:name(params)rest}" between '$'-free texts parses to the text before, the function instruction and the text after |
| Subst.IfeqSubstituted | muddled/subst.py:340-358 | in a text, "${fn:ifeq(q,v)rest}" is replaced by the rest exactly when the stripped value of q equals v and by nothing otherwise; ifneq the other way round |
| Subst.IfeqText | muddled/subst.py:340-358 | ifeq or ifneq between two texts gives the rest exactly when the comparison has the function's polarity |
| Subst.IfeqNode | muddled/subst.py:340-358 | a parsed ifeq or ifneq evaluates to the rest exactly when the comparison has the function's polarity |
| Subst.EchoSubstituted | muddled/subst.py:360-363 | in a text, "${fn:echo(p1,...,pn)rest}" is replaced by the parameters one after another, and the rest is dropped |
| Subst.NamedFnParsed | muddled/subst.py:643-661 | substituting "${fn:echo(...)rest}" or "${fn:val(...)rest}" evaluates the nodes the parser gives |
| Subst.EchoNode | muddled/subst.py:360-363 | a parsed echo evaluates to its parameters' texts concatenated in order |
| Subst.FnValSubstituted | muddled/subst.py:319-338 | in a text, "${fn:val(k)rest}" is replaced by the value of the stripped key, as "${k}" is; a lookup error fails the substitution |
| Interpatch.LeadingShape | sandbox/interpatch.py:193-201 | dropping leading blank lines leaves a suffix that is empty or starts with a non-empty line, and only blank lines are dropped |
| Interpatch.TrailingShape | sandbox/interpatch.py:194-202 | dropping trailing blank lines leaves a prefix that is empty or ends with a non-empty line, and only blank lines are dropped |
| Interpatch.PrunedShape | sandbox/interpatch.py:190-202 | the pruned log is empty exactly when every line is blank; otherwise it is a slice of the log that starts and ends with a non-empty line, with only blank lines outside it |
| Interpatch.PrunedIdempotent | sandbox/interpatch.py:190-202 | pruning a pruned log changes nothing |
| Interpatch.Commit.constructor | sandbox/interpatch.py:184-188 | the id and headers as given, and the log pruned |
| Interpatch.Commit.PruneLog | sandbox/interpatch.py:190-202 | the log loses its leading and trailing blank lines; id and headers are unchanged |
| Interpatch.LastKept | sandbox/interpatch.py:195-202 | the loop's last non-empty index marks where the trailing blank lines start |
| Interpatch.HexTailShape | sandbox/interpatch.py:254-270 | the id is the longest run of hex digits that ends the line |
| Interpatch.CommitLineId | sandbox/interpatch.py:262-270 | the line "commit <id>" gives the id back |
| Interpatch.HeaderAsWrittenShape | sandbox/interpatch.py:255-275 | as written, a line is a header exactly when some colon has a non-colon before it, and the key is a non-empty run free of colons |
| Interpatch.KeyColon | sandbox/interpatch.py:255-280 | a key free of colons, a colon and the rest give the key and the rest without its leading whitespace |
| Interpatch.IndentedColonIsHeaderAsWritten | sandbox/interpatch.py:255-280 | as written, an indented message line holding a colon is taken for a header; the corrected reading keeps it in the message |
| Interpatch.HeaderLine | sandbox/interpatch.py:274-280 | a header line "Key: value" as git log writes it gives back its key and value |
| Interpatch.Finished | sandbox/interpatch.py:282-285 | the commits finished, and the one being read when there is one |
| Interpatch.DoDiff | sandbox/interpatch.py:229-285 | a failed git log gives no commits; otherwise the parse of the log, failing exactly when the parser stops, and one commit per commit line |
| Interpatch.ErrorSticks | sandbox/interpatch.py:261-269 | once a line stops the parser, the rest of the log does not matter |
| Interpatch.StopsPrefix | sandbox/interpatch.py:261-269 | whether a line stops the parser depends only on the lines up to it |
| Interpatch.ScannedIds | sandbox/interpatch.py:261-285 | the ids of the commits read are those of the commit lines, in order; none is open exactly when there is no commit line |
| Interpatch.ScannedStops | sandbox/interpatch.py:261-269 | the parser stops exactly when a commit line has no hex id |
| Interpatch.EntriesShape | sandbox/interpatch.py:260-285 | the log is an Error exactly when a commit line has no hex id; otherwise one commit per commit line, in order, with the id its line ends with |
| Interpatch.Get | sandbox/interpatch.py:102-112 | the value of an option that exists; any other is an error |
| Interpatch.Version | sandbox/interpatch.py:102-106 | succeeds exactly when STAMP's version reads as the integer 2; another integer is an Error |
| Interpatch.Reads | sandbox/interpatch.py:121-160 | what each section reads as, in order |
| Interpatch.ReadCheckouts | sandbox/interpatch.py:114-165 | the loop computes the checkouts of the sections |
| Interpatch.CollectOrder | sandbox/interpatch.py:161-163 | the names are listed once each, in the order first seen, and are exactly the keys of the table |
| Interpatch.CollectTable | sandbox/interpatch.py:156-163 | the table holds exactly the names the sections give, each checkout section under its name |
| Interpatch.CollectOk | sandbox/interpatch.py:121-163 | reading succeeds exactly when every section reads and no two name the same checkout; a duplicate is an Error |
| Interpatch.ReadStamp | sandbox/interpatch.py:95-99 | the stamp of the file: its version checked, then its base data and its checkouts read |
| Interpatch.StampShape | sandbox/interpatch.py:95-106 | every stamp read has version 2 and a consistent checkout table; another integer version is an Error |
| Interpatch.MissingRepoReport | sandbox/interpatch.py:168-181 | exactly the checkouts of this stamp the other lacks, each once, and the log section records each with its repository |
| Interpatch.DoMissing | sandbox/interpatch.py:315-319 | the checkouts only the first stamp has are removed, those only the second has are added, and none is both |
| ToDoFinder.Terminated | sandbox/ToDoFinder/FullCheckNames.py:69 | one item per line, each followed by the output newline |
| ToDoFinder.FileLineIter | sandbox/ToDoFinder/FullCheckNames.py:49-70 | the loop yields the lines of the text the reads deliver, each ended line followed by the output newline (the input newline by default), then a non-empty trailing part as it is |
| ToDoFinder.SplitRead | sandbox/ToDoFinder/FullCheckNames.py:66-69 | every line the carried text and the new read end is yielded with the output newline, and the part after the last newline is carried on |
| ToDoFinder.YieldLines | sandbox/ToDoFinder/FullCheckNames.py:69 | every line is yielded, in order, with the output newline after it |
| ToDoFinder.Advance | sandbox/ToDoFinder/FullCheckNames.py:63-69 | yielding after each read yields what one split of the whole text would, and carries the same tail |
| ToDoFinder.EndedAppend | sandbox/ToDoFinder/FullCheckNames.py:66-68 | the lines ended in a longer text are those ended before, then those the carried tail and the new characters end |
| ToDoFinder.ReadMore | sandbox/ToDoFinder/FullCheckNames.py:64-66 | a non-empty read adds itself to the text |
| ToDoFinder.SplitAppend | sandbox/ToDoFinder/FullCheckNames.py:67-68 | splitting a longer text keeps the parts the separator already ended and continues the last one |
| ToDoFinder.ReadAll | sandbox/ToDoFinder/FullCheckNames.py:62-69 | reads that are never empty deliver all their characters, so the read size changes only the chunking, not what is yielded |
| ToDoFinder.LinesJoin | sandbox/ToDoFinder/FullCheckNames.py:49-70 | with the default output newline, the lines yielded put back together give the text read |
| ToDoFinder.ConcatTerminated | sandbox/ToDoFinder/FullCheckNames.py:67-70 | parts each followed by the separator, then a last part, are the parts joined by the separator |
| ToDoFinder.LinesShape | sandbox/ToDoFinder/FullCheckNames.py:61-70 | every item but the last ends with the output newline and holds no input newline before it; empty input yields nothing and any other input something |
| ToDoFinder.ExitCode | sandbox/ToDoFinder/FullCheckNames.py:250-266 | no code exactly when nothing was found; otherwise 2, 4 or 8 |
| ToDoFinder.ExitCodePriority | sandbox/ToDoFinder/FullCheckNames.py:261-266 | an unfinished comment gives 2 whatever else was found; a mismatch with no comment gives 4 whatever the TODOs; 8 exactly when only TODOs were found |

## Left out

- Input and output are not modelled. This covers running commands, reading and writing files, walking directories, printing and logging. Command output, file lines, file existence and directory contents become parameters of the functions that use them.
- Python dict and set iteration order is unspecified, so those collections are sets and maps. Where the source sorts, the model sorts. Where it does not, the model fixes no order.
- Actions, VCS handlers and XML nodes are opaque: an action is known by its name, and an XML document is a tree of elements and text.
- What an action does when build_label runs it is not modelled. Which actions raise is a parameter, a map from target to the error raised, and the per-target environment set up and restored around each action is left out.
- The insides of environment stores are not modelled. muddled/env_store.py is not part of this model; a store is an object with an identity.
- `load_instruction_helper` (muddled/db.py) reads XML instruction files and is left out. The name of the instruction file is modelled.
- `find_and_load`, `show_version`, `set_options` and `set_old_env` (muddled/cmdline.py) are left out. Whether a build tree was found is a parameter, and so are the sub-domain directories `guess_cmd_in_build` probes.
- The bodies of individual commands in muddled/commands.py are left out, apart from the decisions named above.
- `fix_up_pkgconfig_and_la` (muddled/rewrite.py) only walks the object directory and calls `subst_la` and `subst_pc` on the files it finds, so it is left out.
- `twolevel`, `multilevel`, `single`, `attach_env` and `ExpandingMakeBuilder` (muddled/pkgs/make.py) are left out. So are `MakeBuilder.ensure_dirs` and `_amend_env`, which act on directories and the process environment.
- `simple_checkouts.relative`, which `simple` and `medium` call when `simpleCheckout` is set, is not modelled. muddled/checkouts/simple.py is not part of this model.
- The Bazaar handler's `status`, `revision_to_checkout`, `_revision_id` and `get_file_content` are left out. So is everything in its other commands beyond the arguments they build and their refusal of a branch.
- Subversion's `pull` and `merge` compare the revision number before and after the update to say whether anything changed. That comparison, `_just_revno`, is left out; the model gives the update command.
- `inform_deployment_path` and the `set_env` helpers of muddled/deployment.py act on environment stores and are left out.
- `ReleaseSpec` writing to and reading from files is left out, as is the INI layout of stamp files: a section is a map from option names to their text.
- The `problems` of `compare_checkouts` are a set. The label-sorted order of their printed list is not modelled.
- The documentation report of muddled/docreport.py is left out: `dissect`, `describe_contents`, `determine`, `report` and their helpers walk live Python objects. Only the suffix index `HashThing` is modelled, with each documented object reduced to its class name and an identity.
- In sandbox/interpatch.py, running git, `Repo.get_path`, `log_commits`, `dump_diffs`, `do_repo_diff`, `go` and the FAILURES section written when git fails are left out.
- `InterPatch.do_missing` stores the removed checkouts in `checkouts_added` and the added ones in `checkouts_removed`. `Interpatch.DoMissing` names its results by what they hold.
- The file-scanning checks of sandbox/ToDoFinder/FullCheckNames.py are left out: matching `//==` sides, finding TODOs and unfinished comments, and printing. Only `fileLineIter` and the exit code of `output` are modelled.
- ToDoFinder.FileLineIter: the input newline is one character. The source accepts a newline string of any length. The reads are given as the list of chunks they return, so the read size appears only through that list.
- Subst.Doc: its own contract states only that parsing reads forward through the stream. What it parses is stated by `DocLoopPlain`, `Escapes`, `EscapedInstructionIsLiteral`, `NoDollarUnchanged`, `UnterminatedInstruction`, `KeyParsed`, `QuotedParsed` and `FnParsed`.
- Subst.DocLoop: its own contract states only that each turn reads forward. What the loop produces is stated by `DocLoopPlain`, `DocLoopTo`, `DocLoopKey`, `DocLoopQuoted`, `DocLoopSteps` and `DocLoopFn`.
- Subst.Literal: its own contract states only that it reads forward. `LiteralTo` states what it reads from bare text.
- Subst.Param: its own contract states only that it reads forward. `ParamTo` states what it reads from an unquoted parameter. Quoted parameters are covered only by that forward-reading contract.
- Subst.Params: its own contract states only that the loop reads forward. `ParamStep`, `ParamsRunAt`, `RunParams` and `ParamsTo` state what it reads from unquoted parameters joined by ','.
- Subst.Instr: its own contract states only that it reads forward. `InstrKey`, `InstrQuoted` and `InstrFn` state what it reads from a key, a quoted key and a function instruction.
- Subst.QuotedInstr: its own contract states only that it reads forward. `InstrQuoted` states what it reads from a quoted key that has no space between its closing quote and the '}'.
- Subst.FnInstrTail: its own contract states only that it reads forward. `FnInstrTailTo` states what it reads when a parenthesised list of unquoted parameters follows the name. A function with no parameter list is covered only by that forward-reading contract.
- Subst: the text-level lemmas `KeySubstituted`, `QuotedSubstituted`, `FnValSubstituted`, `IfeqSubstituted` and `EchoSubstituted` cover one instruction between '$'-free texts, with keys, parameters and rests that hold no '$' or backslash. Nested instructions, escapes inside an instruction and quoted parameters are covered only by the parser's forward-reading contracts.
- Labels are compared and used as map keys on the whole datatype, including the transient and system flags. Python's `Label.__eq__` and `__hash__` ignore both flags (muddled/depend.py:571-591 and 625-633). `LabelMatching.Same` and `LabelMatching.HashKey` model that identity, but the rule set and the scheduler do not use it. So where the program treats `checkout:co/pulled[T]`, which muddled/pkg.py:225 files as transient, and `checkout:co/pulled` as one label, the model treats them as two. The members below are affected.
- Rules.AddRule: a rule for a target that differs from an existing one only in its flags is filed as a new rule rather than merged into the existing one.
- Rules.RuleSet.Add: as `Rules.AddRule`. A target differing only in its flags gets a rule of its own.
- Rules.RuleSet.RulesForTarget: with tags used and no matching, a lookup finds only the rule whose target has the same flags. The matching lookups compare fields and are not affected.
- Rules.RuleSet.TargetsMatch: without matching, a query finds only a target with the same flags. With matching, fields are compared and the flags play no part.
- Rules.RuleSet.RuleForTarget: as `Rules.RuleSet.RulesForTarget`. A target differing only in its flags has no rule.
- Rules.RuleSet.RulesWhichDependOn: a rule counts as depending on a label only when its dependency set holds that label with the same flags.
- Scheduler.ScanDeps: a dependency counts as built only when a label with the same flags was built. For example, a dependency on `checked_out[T]` is not satisfied by a built `checked_out`.
- Scheduler.CheckDeps: as `Scheduler.ScanDeps`. Its answer can report a dependency as missing although an equal label, differing only in its flags, was built.
- Scheduler.NeededToBuildLabels: a dependency that differs from every rule target only in its flags has no provider in the model. The model then ends with a MuddleBug, where the program finds the rule for the equal target.
- Scheduler.MissingOf: as `Scheduler.ScanDeps`. The missing dependencies are those not built with the same flags.
- Repositories.New: uses the corrected `default_path`. With `prefix_as_is`, no prefix, base `http://example.com` and name `busybox`, the program gives `http://example.comNonebusybox` and the model gives `http://example.combusybox`.
- Rewrite.LaLineCases: reads `dependency_libs` with the corrected `unquote_list`. For the value `'a\ b'` the program reads the entry `ab` and the model reads `a b`.
- Rewrite.SubstLa: as `Rewrite.LaLineCases`. An escaped space in `dependency_libs` is kept in the model and dropped by the program.
- Bazaar.Entry: reads a `.bzr/branch/branch.conf` line with the corrected join. For `parent_location=http://h/?a=b` the program's value is `http://h/?ab` and the model's is `http://h/?a=b`.
- Bazaar.ReadBranchConf: as `Bazaar.Entry`. Every '=' after the first is kept in the value.
- Bazaar.Reparent: reads branch.conf as `Bazaar.ReadBranchConf` does. When it rewrites the file, each setting is written back from its parsed value. For the line `x=a=b` the program writes `x = ab` and the model writes `x = a=b`.
- Bazaar.ReparentWithoutForce: as `Bazaar.Reparent`.
- Bazaar.ReparentWithForce: as `Bazaar.Reparent`.
- Subversion.Pull: checks conflicts line by line, as `Subversion.ConflictCheck` does. For any non-empty `svn status` output the program raises an error before the update. The model refuses only a line showing a conflict, and otherwise gives the update command.
- Subversion.GotoRevision: goes through `Subversion.Pull` and differs from the program as it does.
- Subst.NodeText: strips one trailing newline, as corrected. For the text `abc\n` the program keeps the newline and the model drops it. For `\nx` the program gives `\n` and the model gives `\nx`.
- Subst.QueryStringValue: gives the text of the node as `Subst.NodeText` does, so it differs from the program on the same inputs.
- Interpatch.DoDiff: reads commit headers with the corrected `Interpatch.Header`. An indented message line such as `    Fixes: #12` stays in the model's log message; the program files it as a header.
- Command output is modelled as the text that `utils.get_cmd_data` prints on stdout, the form svn.py expects when it passes `show_command` (muddled/vcs/svn.py:237 and 262). The `get_cmd_data` of muddled/utils.py:675-705 returns a `(returncode, stdout, stderr)` tuple instead and takes no `show_command`. With that version, the loop in `pull` first sees the integer return code and fails at once, and the calls at muddled/vcs/svn.py:237 and 262 fail on the unknown keyword.
- Subst.PushbackInputStream: the line and character numbers are kept, but only to show that a pushed-back character leaves them alone. Error messages do not report them.
- CommandLine.Scan: its own contract states only which kinds of error it raises. The options it reads are stated by `ScanStops`, `HelpWins`, `TreeAndNoOp` and `UnknownOptionRefused`.

## Findings

| source | as written | input that shows it | evidently intended | confidence | as-written member | corrected member |
|---|---|---|---|---|---|---|
| muddled/utils.py:1398-1432 | `unquote_list` drops an escaped space, so it is not the inverse of `quote_list` | `quote_list(['a b'])` is `a\ b`, which reads back as `['ab']` | an escaped space stays in its element | not executed | Utils.UnquoteLosesEscapedSpace | Utils.UnquoteKeptSpaced |
| muddled/utils.py:1696-1701 | `VersionNumber.__lt__` compares `minor` whatever `major` is | 1.5 < 2.0, and also 2.0 < 1.5 because 0 < 5 | compare `major` first, then `minor` | not executed | Versions.LtNotAsymmetric | Versions.LexLtIsOrder |
| muddled/repository.py:357-384 | with `prefix_as_is` and no prefix, the prefix is formatted with `%s` | base `http://example.com`, no prefix, name `busybox` gives `http://example.comNonebusybox` | no prefix adds nothing, as an empty one does | not executed | Repositories.AsIsNonePrefixAsWritten | Repositories.NonePrefixIgnored |
| muddled/vcs/bazaar.py:374-376 | `''.join(words[1:])` drops every '=' after the first from the value | the line `parent_location=http://h/?a=b` gives the value `http://h/?ab` | `'='.join(words[1:])` | not executed | Bazaar.ValueAsWrittenDropsEquals | Bazaar.EntryRoundTrip |
| muddled/vcs/svn.py:102-107 | `for line in text` walks the characters of the status output, and `line[1]` of a one-character string raises IndexError. This assumes `get_cmd_data` returns the output text, as the calls with `show_command` at muddled/vcs/svn.py:237 and 262 expect; the tuple-returning version at muddled/utils.py:675-705 fails even earlier, on the integer return code | any non-empty `svn status` output | walk the lines, `text.split('\n')` | not executed | Subversion.ConflictCheckAsWritten | Subversion.ConflictCheck |
| muddled/subst.py:33-35 | `result[:-1] == '\n'` compares everything but the last character with a newline | text `abc\n` keeps its newline; text `\nx` becomes `\n` | `result[-1:] == '\n'`: strip one trailing newline. The comment "Strip trailing '\n's" could also mean `rstrip('\n')`. One newline is taken because the body removes a single character with no loop. The two readings differ only for text ending in two or more newlines | not executed | Subst.NodeTextAsWrittenMisses | Subst.NodeTextStripsOneNewline |
| sandbox/interpatch.py:255-280 | the header pattern `([^:]+):\s*(.*)$` lets `[^:]+` take a line's leading whitespace as part of the key, so an indented message line holding a colon is a header. `re.match` would give the same result, so the cause is the pattern, not the use of `search` | the message line `    Fixes: #12`, indented as `git log` indents messages, becomes the header `    Fixes` instead of message text | a header line starts with a key in the first column, as `git log` writes Author, Date and Merge. A line starting with whitespace is message text | not executed | Interpatch.IndentedColonIsHeaderAsWritten | Interpatch.HeaderLine |
