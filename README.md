# AWS cleanup tool: a verified model of its core

This project models the core of an interactive AWS cleanup tool in Dafny and proves properties of that model. The tool lists the resources of an account, lets the user pick some, and deletes them in an order that respects their dependencies.

The centre of the model is the deletion-order engine of `src/awscleanup/core/discovery.py`:

- **`_build_dependency_map`** rewrites every resource's `dependents` list in place, from the one-directional `dependencies` lists of the whole catalog.
- **`get_deletion_order`** peels the selection round by round. Each round places every resource with no dependent still pending, in remaining order. When a round finds nothing eligible (a cycle), it forces the first remaining resource out and emits a warning.

The earlier form of the same engine, in the single-file script `aws_cleanup.py`, is modelled beside it and related to it. Around the engine sit the smaller pieces the tool relies on:

- the cleanup session's selection set and the resource, account and service records (`models.py`);
- the account safety lists, environment classification, profile list and command base (`profile_manager.py`, and the older versions in `aws_cleanup.py`);
- the service table, its enabled and protected lists, the region-list parser and the service configuration file filter (`settings.py`);
- the shared handler logic of `services/base.py`: CLI failure classification, tag parsing, state mapping and handler defaults;
- the RDS status mapping and deletion-command dispatch (`rds_service.py`);
- the handler registry (`service_factory.py`).

Resources are objects: `Models.Resource` is a class whose `dependents` field the dependency-map builders update in place. The engine keys resources on `identifier`. The ordering loops are `while` loops in methods, each proved equal to a recursive specification function (`Discovery.DeletionOrder`, `Discovery.Run`), and the properties are proved about those functions. A `Peel` value is one state of the `get_deletion_order` loop, and `Trace` is the sequence of states the loop passes through.

Python's `list.remove` removes the first element *equal* to its argument, and dataclass equality compares fields. The model removes the first element *identical* to its argument. The two agree in both ordering loops:

- Field-equal resources have the same `dependents`, so every round gives them the same eligibility verdict.
- A round places its resources in remaining order, so each removal finds, as the first equal element, the very object being placed.

The AWS CLI is never run. Its exit code, its output streams and the parsed JSON of its output are parameters. So are a configuration file's parsed sections (`None` when the file is missing), the user's typed answers in the legacy safety check, and the success flag of a delete command.

## Model

| member | source | states |
|---|---|---|
| Models.Resource.constructor | src/awscleanup/core/models.py:32-43 | every field holds the value given, `dependents` included |
| Models.Resource.DisplayName | src/awscleanup/core/models.py:46-48 | the name when it is non-empty, else the identifier; empty only when both are |
| Models.Resource.FullIdentifier | src/awscleanup/core/models.py:51-53 | three parts joined by two separators: its length is the parts' lengths plus two |
| Models.SplitOnce | src/awscleanup/core/models.py:51-53 | the text before the first separator and the text after it, None exactly when there is no separator |
| Models.SplitOnceOfJoin | src/awscleanup/core/models.py:51-53 | joining a separator-free head and any tail at the separator splits back into them |
| Models.FullIdentifierRoundTrip | src/awscleanup/core/models.py:51-53 | splitting the full identifier at its first two ':' gives back service, type and identifier whenever service and type contain no ':' (the identifier may) |
| Models.FullIdentifierInjective | src/awscleanup/core/models.py:51-53 | under the same condition, equal full identifiers mean equal service, type and identifier |
| Models.AccountFlagsExclusive | src/awscleanup/core/models.py:66-74 | `is_production` and `is_protected` are equality tests on the environment type, so they never hold together |
| Models.ServiceConfig.IsAllowed | src/awscleanup/core/models.py:85-87 | a protected or disabled service is never allowed; an enabled, unprotected one always is |
| Models.SelectById | src/awscleanup/core/models.py:98-100 | the result holds exactly the resources whose identifier is selected, and is no longer than the catalog; selected ids with no resource add nothing |
| Models.SelectByIdConcat | src/awscleanup/core/models.py:98-100 | selection keeps catalog order: selecting from a + b is selecting from a, then from b |
| Models.Toggled | src/awscleanup/core/models.py:106-113 | the toggled id's membership flips and every other id keeps its membership |
| Models.ToggleTwiceRestores | src/awscleanup/core/models.py:106-113 | toggling the same id twice gives back the original selection |
| Models.CleanupSession.constructor | src/awscleanup/core/models.py:90-96 | a new session has the account given and empty resources, selection and configs |
| Models.CleanupSession.GetSelectedResources | src/awscleanup/core/models.py:98-100 | the selection filter of the session: exactly the resources whose id is selected, in catalog order |
| Models.CleanupSession.IsResourceSelected | src/awscleanup/core/models.py:102-104 | true exactly when the id is in the selection; each catalog resource carrying the id is among the selected resources exactly when it is true |
| Models.CleanupSession.ToggleResourceSelection | src/awscleanup/core/models.py:106-113 | the new selection is the old one with the id toggled; the result is true exactly when the id was absent before, and equals `is_resource_selected` afterwards |
| Discovery.IdList | src/awscleanup/core/discovery.py:109 | the identifiers of the resources, position by position, with the members of the id set |
| Discovery.SameIdentifierSameObject | src/awscleanup/core/discovery.py:93 | with distinct identifiers, keying on the identifier picks out one object |
| Discovery.ResourceMap | src/awscleanup/core/discovery.py:93 | the lookup table's keys are the catalog's identifiers and each key maps to a catalog resource carrying it |
| Discovery.ResourceMapKeepsLast | src/awscleanup/core/discovery.py:93 | an identifier maps to the last resource that carries it |
| Discovery.BuildDependencyMap | src/awscleanup/core/discovery.py:90-103 | afterwards every resource's `dependents` is `RebuiltDependents` of the catalog, whatever the lists held before, so a second call on an unchanged catalog changes nothing |
| Discovery.RecordDependent | src/awscleanup/core/discovery.py:101-103 | the inner loop appends the resource's identifier to each list once per dependency the table resolves to that list's owner, and changes nothing else |
| Discovery.DependentsInCatalogOrder | src/awscleanup/core/discovery.py:100-103 | with distinct identifiers each rebuilt list is the reference list: the dependents in catalog order, each once per mention |
| Discovery.DependentsCount | src/awscleanup/core/discovery.py:93-103 | with distinct identifiers, X's id occurs in D's rebuilt dependents exactly as often as D's id occurs in X's dependencies |
| Discovery.Bidirectional | src/awscleanup/core/discovery.py:90-103 | with distinct identifiers, B depends on A exactly when B is among A's rebuilt dependents |
| Discovery.DanglingDependencyIgnored | src/awscleanup/core/discovery.py:102 | a dependency naming no catalog resource adds to no list, as if it were absent |
| Discovery.EligibleMembers | src/awscleanup/core/discovery.py:113-119 | a remaining resource is placed this round exactly when none of its dependents is pending |
| Discovery.WaitingMembers | src/awscleanup/core/discovery.py:113-119 | a resource waits exactly when one of its dependents is pending |
| Discovery.EligibleWaitingSplit | src/awscleanup/core/discovery.py:113-119 | the eligible and the waiting resources together are the remaining ones, none lost or repeated |
| Discovery.EligibleConcat | src/awscleanup/core/discovery.py:113-119 | eligibility is decided resource by resource, so the eligible list keeps remaining order |
| Discovery.WaitingShrinks | src/awscleanup/core/discovery.py:113-130 | a round that places something leaves fewer resources waiting, all from the remaining ones |
| Discovery.AllBlocked | src/awscleanup/core/discovery.py:113-121 | when every remaining resource is blocked nothing is eligible |
| Discovery.NothingBlocked | src/awscleanup/core/discovery.py:113-119 | when nothing is blocked the whole remaining list is placed at once |
| Discovery.OutsideDependentsNeverBlock | src/awscleanup/core/discovery.py:113-119 | dependents outside the selection never block: the order is the selection itself, with no warning |
| Discovery.PlacementFacts | src/awscleanup/core/discovery.py:113-123 | every round places at least one resource, and only resources that remain |
| Discovery.ForcedRound | src/awscleanup/core/discovery.py:121-124 | when every remaining resource is blocked, exactly the first is placed, it comes first in the order, and one warning is counted |
| Discovery.RemoveFirstCount | src/awscleanup/core/discovery.py:129 | `remaining.remove(x)` removes one occurrence of x when there is one and leaves the list alone otherwise |
| Discovery.RemoveEachCount | src/awscleanup/core/discovery.py:128-129 | removing the placed resources one by one removes exactly their multiset |
| Discovery.RemovePlacedIsRemoveEach | src/awscleanup/core/discovery.py:128-130 | a round's removals that succeed leave the list with the placed resources removed and the set smaller by one per placed resource |
| Discovery.RemovePlacedFailsWithKeyError | src/awscleanup/core/discovery.py:130 | a round's removals can only fail with KeyError |
| Discovery.RoundShrinks | src/awscleanup/core/discovery.py:127-130 | a completed round leaves fewer resources, all from before, so the loop ends even on cycles |
| Discovery.AdvanceShrinks | src/awscleanup/core/discovery.py:111-130 | one completed loop round shrinks the list and the id set by the same positive amount |
| Discovery.CollectEligible | src/awscleanup/core/discovery.py:113-119 | the scan builds `can_delete` as the eligible resources in remaining order |
| Discovery.RemoveRound | src/awscleanup/core/discovery.py:128-130 | the removal loop removes each placed resource and its id, raising KeyError for an id already gone |
| Discovery.PeelRound | src/awscleanup/core/discovery.py:113-130 | one pass of the loop body places what `Placement` says and removes as `RemovePlaced` says |
| Discovery.PeelAll | src/awscleanup/core/discovery.py:107-132 | the `while remaining` loop returns exactly the outcome of the peel from the whole selection |
| Discovery.GetDeletionOrder | src/awscleanup/core/discovery.py:105-132 | the loop succeeds exactly when the selected identifiers are distinct and then returns the greedy peel `DeletionOrder`; otherwise it raises KeyError |
| Discovery.DeletionOrderOutcome | src/awscleanup/core/discovery.py:107-132 | the outcome of the set-based loop is KeyError for repeated ids and the list-based ordering otherwise |
| Discovery.SetAndListLoopsAgree | src/awscleanup/core/discovery.py:109-130 | with distinct ids, the loop that tests a set of pending ids succeeds and yields the order and warning count of the list-based formulation |
| Discovery.SuccessNeedsEnoughIds | src/awscleanup/core/discovery.py:109-130 | a run that succeeds needs at least as many pending ids as remaining resources |
| Discovery.DuplicatesShrinkIds | src/awscleanup/core/discovery.py:109 | the id set is never larger than the selection, and is smaller whenever ids repeat |
| Discovery.FailuresAreKeyErrors | src/awscleanup/core/discovery.py:111-130 | the only way the loop fails is KeyError |
| Discovery.EmptySelection | src/awscleanup/core/discovery.py:107-111 | an empty selection gives an empty order without warnings |
| Discovery.DeletionOrderIsPermutation | src/awscleanup/core/discovery.py:107-132 | the order holds every selected resource exactly as often as the selection does |
| Discovery.DependentsComeFirst | src/awscleanup/core/discovery.py:111-130 | when no round was forced, every resource comes after all of its dependents that are in the selection |
| Discovery.AcyclicNeedsNoWarning | src/awscleanup/core/discovery.py:121-124 | when the selected dependents form no cycle (a ranking exists), no round is ever forced |
| Legacy.LegacyBuildDependencyMap | aws_cleanup.py:461-470 | each list gains `RebuiltDependents` after what it held, since nothing is cleared; from the empty lists resources are built with, one call gives the lists of `_build_dependency_map` |
| Legacy.LegacyDeletionOrder | aws_cleanup.py:585-609 | the loop returns the list-based ordering for every selection: a permutation, dependents first when no round was forced, equal to `get_deletion_order` for distinct ids, where the newer loop raises KeyError for repeated ids |
| Legacy.LegacyRound | aws_cleanup.py:589-609 | one round of the legacy loop appends the placements and leaves a shorter list whose ordering completes the same order |
| Legacy.LegacyOutcome | aws_cleanup.py:585-609 | the ordering is a permutation, dependents first without forced rounds, and what `get_deletion_order` returns for distinct ids |
| Legacy.ChooseRound | aws_cleanup.py:594-605 | a round's placements are the unblocked resources, or the first remaining one alone |
| Legacy.CollectUnblocked | aws_cleanup.py:594-601 | testing against the list of remaining ids selects what testing against their set selects |
| Legacy.RemoveEachPlaced | aws_cleanup.py:608-609 | removing the placed resources never fails and removes exactly them |
| Legacy.RoundLeavesFewer | aws_cleanup.py:603-609 | every round removes at least one resource, so the loop ends |
| Legacy.LegacyParseAccountList | aws_cleanup.py:59-65 | splitting into a set and stripping afterwards gives the same set as the one-step comprehension of the newer code |
| Legacy.LegacyProfileManager.constructor | aws_cleanup.py:44-49 | no profile and empty account sets before the config is loaded |
| Legacy.LegacyProfileManager.LoadSafetyConfig | aws_cleanup.py:51-69 | each list section present replaces its set with the parsed accounts; a missing file or section changes nothing |
| Legacy.LegacyProfileManager.DetermineEnvironmentType | aws_cleanup.py:145-160 | the ARN keywords decide first ('test' counting as development); only an ARN with no keyword consults the protected list, then the safe list |
| Legacy.ClassificationsAgreeOffLists | aws_cleanup.py:145-160 | for an account on neither list the legacy and newer classifications agree, except that a 'test' ARN is development in the legacy code and testing in the newer |
| Legacy.ProtectedListWinsOnlyInNewer | aws_cleanup.py:145-160 | a protected account whose ARN mentions 'prod' is production for the legacy code and protected for the newer code |
| Legacy.DevOrTest | aws_cleanup.py:153 | the development keyword list finds exactly what 'dev' or 'test' finds |
| Legacy.LegacyProfileManager.VerifyAccountSafety | aws_cleanup.py:202-243 | a protected account is refused before any prompt; production needs the exact risk phrase; an unknown account may join the safe list and must answer 'y' to continue; the prompt count and the new safe set follow |
| Legacy.LegacyProfileManager.SetupAwsCommand | aws_cleanup.py:245-251 | `['aws']` for no, empty or 'default' profile, else `['aws', '--profile', p]`; the profile is recorded |
| Profiles.ParseAccountList | src/awscleanup/core/profile_manager.py:37-38 | every parsed account is trimmed, non-empty and comma-free |
| Profiles.AccountListOfJoin | src/awscleanup/core/profile_manager.py:37-54 | what the save writes (accounts joined by ',') parses back to the same set |
| Profiles.ArnEnvironment | src/awscleanup/core/profile_manager.py:145-160 | the keyword search on the lowercased ARN, production before staging before development before testing, both directions of each case |
| Profiles.KeywordAndLonger | src/awscleanup/core/profile_manager.py:151-158 | a keyword list holding a word and a longer word it starts finds exactly what the short word finds |
| Profiles.KeywordPair | src/awscleanup/core/profile_manager.py:153 | a two-word keyword list finds what either word finds |
| Profiles.NonDefault | src/awscleanup/core/profile_manager.py:69 | the credentials sections other than 'default' |
| Profiles.GetAvailableProfiles | src/awscleanup/core/profile_manager.py:59-87 | sorted, duplicate-free, contains 'default', and holds exactly the names the two files give (config sections only by a 'profile ' prefix, with every 'profile ' removed) |
| Profiles.ProfileManager.constructor | src/awscleanup/core/profile_manager.py:18-23 | no profile, command base `['aws']`, empty account sets |
| Profiles.ProfileManager.LoadSafetyConfig | src/awscleanup/core/profile_manager.py:26-45 | each list section present replaces its set with the parsed accounts; a missing file or section leaves the set |
| Profiles.ProfileManager.DetermineEnvironmentType | src/awscleanup/core/profile_manager.py:143-160 | PROTECTED exactly for a protected account, SAFE exactly for a safe one that is not protected, the ARN keywords only for the rest |
| Profiles.ProfileManager.VerifyAccountSafety | src/awscleanup/core/profile_manager.py:162-169 | AccountSecurityError exactly for a protected account, True otherwise |
| Profiles.ProfileManager.SetupAwsCommand | src/awscleanup/core/profile_manager.py:171-185 | returns and stores `['aws']`, and records the profile |
| Profiles.ProfileManager.AddSafeAccount | src/awscleanup/core/profile_manager.py:187-190 | adds the id to the safe set; the protected set is outside its frame |
| Profiles.ProfileManager.AddProtectedAccount | src/awscleanup/core/profile_manager.py:192-195 | adds the id to the protected set; the safe set is outside its frame |
| Profiles.ProfileManager.RemoveSafeAccount | src/awscleanup/core/profile_manager.py:197-203 | true exactly when the id was there; afterwards it is gone and nothing else changed |
| Profiles.ProfileManager.RemoveProtectedAccount | src/awscleanup/core/profile_manager.py:205-211 | true exactly when the id was there; afterwards it is gone and nothing else changed |
| Config.ParseRegions | src/awscleanup/config/settings.py:148-152 | None exactly for blank input; otherwise a list of trimmed, non-empty, comma-free names |
| Config.StrippedPartsAreRegions | src/awscleanup/config/settings.py:152 | stripping the comma-free parts and dropping the empty ones leaves region names only |
| Config.ParseRegionsOfJoin | src/awscleanup/config/settings.py:100 | the region list the save writes reads back as itself (None for the empty list) |
| Config.AllKept | src/awscleanup/config/settings.py:152 | well-formed names pass through stripping and filtering unchanged |
| Config.OnlyCommasParseToEmptyList | src/awscleanup/config/settings.py:150-152 | `","` is not blank, so it parses to the empty list, not to None |
| Config.GetBoolean | src/awscleanup/config/settings.py:62-63 | the default for a missing key; true, false or an error (None) by the lowercased word |
| Config.SectionConfig | src/awscleanup/config/settings.py:60-65 | the entry a section describes keeps the name and parses the regions; None exactly when a flag does not parse |
| Config.LoadEntry | src/awscleanup/config/settings.py:57-65 | a name without a section keeps its entry; one with a section takes the section's entry |
| Config.ApplySectionsAt | src/awscleanup/config/settings.py:57-65 | loading keeps each entry's name, and an entry with no section unchanged |
| Config.ApplySectionsIgnoresUnknown | src/awscleanup/config/settings.py:57-58 | a section for a name not in the table has no effect |
| Config.AppliedAt | src/awscleanup/config/settings.py:57-67 | visiting the entries in order never changes a name, and an entry whose outcome is itself stays as it was |
| Config.EnabledMembers | src/awscleanup/config/settings.py:138-141 | a name is on the enabled list exactly when an entry with it is enabled and not protected |
| Config.EnabledIffLookupAllowed | src/awscleanup/config/settings.py:122-141 | with distinct names, a service is on the enabled list exactly when the lookup finds it and its entry is allowed |
| Config.ProtectedMembers | src/awscleanup/config/settings.py:143-146 | a name is on the protected list exactly when an entry with it is protected |
| Config.EnabledNamesConcat | src/awscleanup/config/settings.py:138-141 | the enabled list keeps table order |
| Config.ProtectedNamesConcat | src/awscleanup/config/settings.py:143-146 | the protected list keeps table order |
| Config.EnabledAndProtectedDisjoint | src/awscleanup/config/settings.py:138-146 | with distinct names no service is on both lists |
| Config.DefaultServiceLists | src/awscleanup/config/settings.py:21-29 | with the built-in table, ec2, s3, rds and lambda are offered and iam, route53 and cloudformation are protected |
| Config.IndexOf | src/awscleanup/config/settings.py:124 | the position of the entry with the name, or None exactly when no entry has it |
| Config.Settings.constructor | src/awscleanup/config/settings.py:15-38 | the built-in table and the default UI flags |
| Config.Settings.GetServiceConfig | src/awscleanup/config/settings.py:122-124 | the entry with the name, None exactly for an unknown name |
| Config.Settings.SetServiceEnabled | src/awscleanup/config/settings.py:126-130 | the table becomes `WithEnabled` of the old one, and names stay distinct |
| Config.WithEnabledLookup | src/awscleanup/config/settings.py:122-130 | after setting a flag every name is found where it was; the named entry carries the new `enabled` flag and every other entry reads as before |
| Config.Settings.SetServiceProtected | src/awscleanup/config/settings.py:132-136 | the table becomes `WithProtected` of the old one, and names stay distinct |
| Config.WithProtectedLookup | src/awscleanup/config/settings.py:122-136 | the same for the `protected` flag |
| Config.EnablingLists | src/awscleanup/config/settings.py:126-141 | enabling an unprotected service puts it on the enabled list |
| Config.ProtectingUnlists | src/awscleanup/config/settings.py:132-146 | protecting a service takes it off the enabled list and puts it on the protected list |
| Config.Settings.GetEnabledServices | src/awscleanup/config/settings.py:138-141 | the enabled, unprotected services, in table order |
| Config.Settings.GetProtectedServices | src/awscleanup/config/settings.py:143-146 | the protected services, in table order |
| Config.Settings.ToggleEasterEggs | src/awscleanup/config/settings.py:154-158 | the flag is negated and the new value returned, so two calls restore it |
| Config.Settings.LoadServiceConfig | src/awscleanup/config/settings.py:47-67 | a missing file changes nothing; otherwise the table becomes `ApplySections` of the file, names stay distinct |
| Config.LoadSections | src/awscleanup/config/settings.py:57-65 | the loop over the table returns exactly `ApplySections` of the table and the file's sections |
| Config.LoadStep | src/awscleanup/config/settings.py:58-65 | one pass of the loop body either stops, with the table already the target, or replaces the entry and keeps the loop's state in step with the visit |
| Services.HandlerDefaults | src/awscleanup/services/base.py:36-42 | only the S3 handler is global, every handler supports all regions, and the handler names differ |
| Services.ClassifyFailure | src/awscleanup/services/base.py:54-73 | exit 253 is missing credentials, 254 access denied, other codes access denied exactly when the error text names a permission failure, else a generic failure with the code |
| Services.CommandResult | src/awscleanup/services/base.py:44-75 | a ResourceDiscoveryError exactly for a non-zero exit or unparsable non-blank output; blank output gives `{}` |
| Services.TagDict | src/awscleanup/services/base.py:91 | the keys are the tags' keys ('' for a missing one), and the last tag with a key gives its value |
| Services.ParseTags | src/awscleanup/services/base.py:87-91 | None or an empty list gives `{}`, any other list its tag dict |
| Services.GetNameFromTags | src/awscleanup/services/base.py:93-96 | the 'Name' tag's value whenever the key is present, else the fallback or '' |
| Services.NameTagWins | src/awscleanup/services/base.py:93-96 | the last 'Name' tag decides the name, even with an empty value |
| Services.NoNameTagFallsBack | src/awscleanup/services/base.py:93-96 | without a 'Name' tag the fallback (or '') is used |
| Services.StateFromName | src/awscleanup/services/base.py:105-114 | a known state name gives the state with that value; anything else UNKNOWN |
| Services.StateRoundTrip | src/awscleanup/services/base.py:105-114 | every state's value maps back to that state |
| Services.AllStatesRoundTrip | src/awscleanup/services/base.py:105-114 | every state's value maps back to that state, for all states at once |
| Services.DetermineState | src/awscleanup/services/base.py:98-114 | the dict's 'Name' (or '') or the text, lowercased, decides: a text that is some state's value gives that state, any other text UNKNOWN; a dict without 'Name' is UNKNOWN |
| Services.DetermineStateIgnoresCase | src/awscleanup/services/base.py:100-103 | the case of the state text does not matter, and a text and a dict naming it agree |
| Rds.MapRdsState | src/awscleanup/services/rds_service.py:221-233 | each of the five outcomes exactly for its listed statuses after lowercasing, UNKNOWN for the rest |
| Rds.MapRdsStateIgnoresCase | src/awscleanup/services/rds_service.py:233 | a status and its lowercase form map alike |
| Rds.DeleteArguments | src/awscleanup/services/rds_service.py:238-259 | a command exactly for the three RDS types, whose subcommand is `delete-` and whose identifier flag is `--…-identifier` around the type's own name with '_' written '-', with region and identifier in place; `--skip-final-snapshot` exactly for instances and clusters |
| Rds.DeleteResource | src/awscleanup/services/rds_service.py:235-262 | false for an unknown type; for a known type the command's success |
| Factory.ServiceFactory.constructor | src/awscleanup/services/service_factory.py:16-20 | the registry maps ec2 and s3 to their handlers |
| Factory.InitialRegistry | src/awscleanup/services/service_factory.py:16-29 | the initial registry creates exactly ec2 and s3 handlers |
| Factory.ServiceFactory.CreateService | src/awscleanup/services/service_factory.py:23-29 | ServiceNotSupportedError exactly for an unregistered name, else the registered handler with the command base |
| Factory.ServiceFactory.GetSupportedServices | src/awscleanup/services/service_factory.py:32-34 | exactly the registered names, without duplicates |
| Factory.ServiceFactory.RegisterService | src/awscleanup/services/service_factory.py:37-39 | adds or replaces one entry and keeps the others; a new name goes last; afterwards the name is supported and creates the new handler |
| Strings.Lower | src/awscleanup/core/profile_manager.py:145 | same length, each letter lowercased |
| Strings.LowerIdempotent | src/awscleanup/core/profile_manager.py:145 | lowercasing twice is lowercasing once |
| Strings.Strip | src/awscleanup/config/settings.py:150-152 | empty exactly for blank text; otherwise trimmed at both ends |
| Strings.StripUnchanged | src/awscleanup/config/settings.py:152 | text with no whitespace at either end is its own strip |
| Strings.StripIdempotent | src/awscleanup/config/settings.py:152 | stripping twice is stripping once |
| Strings.StripKeepsOut | src/awscleanup/config/settings.py:152 | stripping adds no character |
| Strings.Split | src/awscleanup/config/settings.py:152 | one part more than there are separators, none containing one |
| Strings.SplitJoin | src/awscleanup/config/settings.py:152 | joining the parts again gives back the text |
| Strings.SplitNoSeparator | src/awscleanup/config/settings.py:152 | text without the separator splits into itself alone |
| Strings.SplitAtSeparator | src/awscleanup/config/settings.py:152 | splitting at the first separator gives the text before it, then the parts of the rest |
| Strings.SplitOfJoin | src/awscleanup/core/profile_manager.py:38-54 | joining separator-free parts and splitting again gives back the parts |
| Strings.ContainsPrefixOfSub | src/awscleanup/core/profile_manager.py:151-158 | text containing a keyword's longer form ("production") contains the keyword ("prod") |
| Strings.RemoveAllAbsent | src/awscleanup/core/profile_manager.py:81 | `replace` leaves text without the pattern unchanged |
| Strings.LexLessIrreflexive | src/awscleanup/core/profile_manager.py:87 | string order is irreflexive |
| Strings.LexLessTransitive | src/awscleanup/core/profile_manager.py:87 | string order is transitive |
| Strings.LexLessTotal | src/awscleanup/core/profile_manager.py:87 | two different strings are ordered one way or the other |
| Strings.LexLessAsymmetric | src/awscleanup/core/profile_manager.py:87 | string order is asymmetric |
| Strings.InsertSorted | src/awscleanup/core/profile_manager.py:87 | inserting into a strictly sorted list keeps it strictly sorted and adds exactly the new string |
| Strings.SortedDistinct | src/awscleanup/core/profile_manager.py:87 | strictly increasing, with exactly the list's elements |
| Strings.StrictlySortedUnique | src/awscleanup/core/profile_manager.py:87 | two strictly sorted lists with the same elements are equal, so `sorted(set(...))` has one answer |

## Left out

- The AWS CLI and everything it does: `subprocess.run`, resource discovery, account lookup, region listing and the delete calls themselves. A command's result, exit code and output are parameters.
- Configuration files: reading, writing and `configparser` itself. `save_*_config`, `load_ui_config` and the file paths are left out. Only their effect on the in-memory sets and table is modelled.
- The `AWS_PROFILE` process environment that `setup_aws_command` changes. It is ambient global state.
- Cost estimation and billing (floating point), the terminal UI, prompts, menus, printing (the cycle warning is a counter), and the cosmetic randomness.
- Profiles.GetAvailableProfiles: the legacy `get_available_profiles` (aws_cleanup.py:83-111) is the same code and is not modelled a second time.
- Strings.Lower: models `str.lower()` for the ASCII letters only.
- Strings.Strip: removes exactly the characters of Python's `str.isspace()`.
- Config.GetBoolean: `configparser` also lowercases option names; keys here are taken as already normalised.
- Config.Settings.SetServiceEnabled: the source mutates the shared ServiceConfig object in place; the model replaces the table entry. No other reference to that object exists in the modelled code, so the effect is the same.
- Config.Settings.LoadServiceConfig: a flag that does not parse raises ValueError, which the source catches and prints. The model stops at that entry: later entries keep their previous values.
- Factory.ServiceFactory: the class-level `_services` dict is shared by every user of the class; the model makes it the state of one object.
- Models.Resource: `metadata` and `state` play no part in the modelled behaviour and are left out.
- Exceptions: the exception classes are one `Error` datatype whose constructors keep what decides the message; the message text itself is not modelled.
