/**
 * The earlier, single-file form of the tool (aws_cleanup.py): its dependency-map
 * builder, the ordering loop inlined in `InteractiveCleanup.delete_resources`, and
 * its profile manager, whose environment classification and safety check differ
 * from the later ones (`Profiles`).
 */
module Legacy {
  import opened Wrappers
  import opened Strings
  import opened Models
  import opened Discovery
  import Config
  import Profiles

  // ================================================================ dependency map

  /**
   * `AWSResourceDiscovery.build_dependency_map`: appends each resource's identifier
   * to the `dependents` of every dependency found in the catalog, without clearing
   * the lists first. Starting from the empty lists every resource is built with,
   * one call gives the lists that `Discovery.BuildDependencyMap` gives.
   */
  method LegacyBuildDependencyMap(resources: seq<Resource>)
    modifies resources
    ensures forall o :: o in resources ==> o.dependents == old(o.dependents) + RebuiltDependents(resources, o)
    ensures (forall o :: o in resources ==> old(o.dependents) == []) ==>
              forall o :: o in resources ==> o.dependents == RebuiltDependents(resources, o)
  {
    var resourceMap := ResourceMap(resources);
    for i := 0 to |resources|
      invariant forall o :: o in resources ==>
                  o.dependents == old(o.dependents) + Accumulated(resources[..i], resourceMap, o)
    {
      RecordDependent(resources, resourceMap, resources[i]);
      AccumulatedStep(resources, i, resourceMap);
    }
    assert resources[..|resources|] == resources;
  }

  // ================================================================ deletion order

  /**
   * The ordering loop of `delete_resources`. Eligibility is tested against a list of
   * the remaining identifiers rather than a set, and nothing can fail: the order is
   * the list-based ordering `Discovery.DeletionOrder` for every selection, distinct
   * identifiers or not. It is a permutation of the selection; without a forced
   * round every resource comes after its selected dependents; and with distinct
   * identifiers it is what `get_deletion_order` of discovery.py returns, which
   * raises KeyError instead when identifiers repeat.
   */
  method LegacyDeletionOrder(selectedResources: seq<Resource>) returns (deletionOrder: seq<Resource>)
    ensures deletionOrder == DeletionOrder(selectedResources).order
    ensures multiset(deletionOrder) == multiset(selectedResources)
    ensures DeletionOrder(selectedResources).warnings == 0 ==> DependentsBefore(deletionOrder)
    ensures UniqueIds(selectedResources) ==>
              DeletionOrderWithIds(selectedResources)
              == Success(Ordering(deletionOrder, DeletionOrder(selectedResources).warnings))
    ensures !UniqueIds(selectedResources) ==> DeletionOrderWithIds(selectedResources).Failure?
  {
    deletionOrder := [];
    var remaining := selectedResources;
    ghost var wanted := DeletionOrder(selectedResources).order;
    while remaining != []
      invariant deletionOrder + DeletionOrder(remaining).order == wanted
      decreases |remaining|
    {
      var canDelete := ChooseRound(remaining);
      var rest := RemoveEachPlaced(remaining, canDelete);
      LegacyRound(remaining, canDelete, rest, deletionOrder, wanted);
      deletionOrder := deletionOrder + canDelete;
      remaining := rest;
    }
    assert deletionOrder + [] == deletionOrder;
    LegacyOutcome(selectedResources, deletionOrder);
  }

  /** One round of the loop keeps the order built so far a prefix of the list-based ordering. */
  lemma LegacyRound(remaining: seq<Resource>, placed: seq<Resource>, rest: seq<Resource>,
                    done: seq<Resource>, wanted: seq<Resource>)
    requires remaining != [] && placed == Placement(remaining, Ids(remaining)).0
    requires rest == RemoveEach(remaining, placed)
    requires done + DeletionOrder(remaining).order == wanted
    ensures (done + placed) + DeletionOrder(rest).order == wanted && |rest| < |remaining|
  {
    var later := DeletionOrder(rest).order;
    ListRound(remaining, placed, Placement(remaining, Ids(remaining)).1, rest);
    assert DeletionOrder(remaining).order == placed + later;
    ConcatAssociative(done, placed, later);
    RoundLeavesFewer(remaining, placed, rest);
  }

  /** What the list-based ordering of a selection is known to satisfy, for the loop's result. */
  lemma LegacyOutcome(selected: seq<Resource>, order: seq<Resource>)
    requires order == DeletionOrder(selected).order
    ensures multiset(order) == multiset(selected)
    ensures DeletionOrder(selected).warnings == 0 ==> DependentsBefore(order)
    ensures UniqueIds(selected) ==> DeletionOrderWithIds(selected) == Success(Ordering(order, DeletionOrder(selected).warnings))
    ensures !UniqueIds(selected) ==> DeletionOrderWithIds(selected).Failure?
  {
    DeletionOrderIsPermutation(selected);
    DependentsComeFirst(selected);
    DeletionOrderOutcome(selected);
  }

  /**
   * One round's placements: the unblocked resources, or the first remaining
   * resource alone when every one is blocked.
   */
  method ChooseRound(remaining: seq<Resource>) returns (canDelete: seq<Resource>)
    requires remaining != []
    ensures canDelete == Placement(remaining, Ids(remaining)).0
    ensures multiset(canDelete) <= multiset(remaining)
  {
    canDelete := CollectUnblocked(remaining);
    if canDelete == [] {
      // circular dependency or unresolved: the first remaining resource goes alone
      canDelete := [remaining[0]];
    }
    PlacementFacts(remaining, Ids(remaining));
  }

  /**
   * One round's scan: the resources none of whose dependents is among the
   * identifiers of `remaining`, in remaining order.
   */
  method CollectUnblocked(remaining: seq<Resource>) returns (canDelete: seq<Resource>)
    ensures canDelete == Eligible(remaining, Ids(remaining))
  {
    canDelete := [];
    for i := 0 to |remaining|
      invariant canDelete == Eligible(remaining[..i], Ids(remaining))
    {
      var resource := remaining[i];
      var hasDependentsInRemaining := exists d :: d in resource.dependents && d in IdList(remaining);
      assert hasDependentsInRemaining == Blocked(resource, Ids(remaining));
      EligibleStep(remaining, i, Ids(remaining));
      if !hasDependentsInRemaining {
        canDelete := canDelete + [resource];
      }
    }
    assert remaining[..|remaining|] == remaining;
  }

  /**
   * `for resource in can_delete: remaining.remove(resource)`. Every placed resource
   * is still in the list when its turn comes, so `remove` never raises.
   */
  method RemoveEachPlaced(remaining: seq<Resource>, placed: seq<Resource>) returns (rest: seq<Resource>)
    requires multiset(placed) <= multiset(remaining)
    ensures rest == RemoveEach(remaining, placed)
  {
    rest := remaining;
    for k := 0 to |placed|
      invariant RemoveEach(remaining, placed) == RemoveEach(rest, placed[k..])
      invariant multiset(placed[k..]) <= multiset(rest)
    {
      var resource := placed[k];
      assert placed[k..] == [resource] + placed[k + 1..];
      assert resource in multiset(rest);
      RemoveFirstCount(rest, resource);
      rest := RemoveFirst(rest, resource);
    }
    assert placed[|placed|..] == [];
  }

  /** A round removes what it places, and it places something. */
  lemma RoundLeavesFewer(s: seq<Resource>, placed: seq<Resource>, rest: seq<Resource>)
    requires s != [] && placed == Placement(s, Ids(s)).0 && rest == RemoveEach(s, placed)
    ensures |rest| < |s|
  {
    PlacementFacts(s, Ids(s));
    RemoveEachCount(s, placed);
    assert |multiset(rest)| == |multiset(s)| - |multiset(placed)|;
  }

  // ================================================================ the profile manager

  /**
   * The account-list parsing of `load_safety_config`: the pieces go into a set
   * first and are stripped afterwards, which gives the same set as the later
   * one-step comprehension.
   */
  function LegacyParseAccountList(accounts: string): (r: set<string>)
    ensures r == Profiles.ParseAccountList(accounts)
  {
    var pieces := set p | p in Split(accounts, ',');
    set acc | acc in pieces && Strip(acc) != [] :: Strip(acc)
  }

  /** `AWSProfileManager` of aws_cleanup.py; `account_info` is set only by the AWS calls. */
  class LegacyProfileManager {
    var currentProfile: Option<string>
    var safeAccounts: set<string>
    var protectedAccounts: set<string>

    /** `__init__` before `load_safety_config`, which `LoadSafetyConfig` models. */
    constructor ()
      ensures currentProfile == None && safeAccounts == {} && protectedAccounts == {}
    {
      currentProfile := None;
      safeAccounts := {};
      protectedAccounts := {};
    }

    /** `load_safety_config`: each list present in the file replaces the set it names. */
    method LoadSafetyConfig(config: Option<map<string, map<string, string>>>)
      modifies this`safeAccounts, this`protectedAccounts
      ensures config.None? || "safe_accounts" !in config.value ==> safeAccounts == old(safeAccounts)
      ensures config.Some? && "safe_accounts" in config.value ==>
                safeAccounts == LegacyParseAccountList(Config.GetString(config.value["safe_accounts"], "accounts", ""))
      ensures config.None? || "protected_accounts" !in config.value ==> protectedAccounts == old(protectedAccounts)
      ensures config.Some? && "protected_accounts" in config.value ==>
                protectedAccounts
                == LegacyParseAccountList(Config.GetString(config.value["protected_accounts"], "accounts", ""))
    {
      if config.None? {
        return;
      }
      var sections := config.value;
      if "safe_accounts" in sections {
        safeAccounts := LegacyParseAccountList(Config.GetString(sections["safe_accounts"], "accounts", ""));
      }
      if "protected_accounts" in sections {
        protectedAccounts := LegacyParseAccountList(Config.GetString(sections["protected_accounts"], "accounts", ""));
      }
    }

    /**
     * `_determine_environment_type` of aws_cleanup.py: the ARN keywords come first
     * and 'test' counts as development; only an ARN with no keyword consults the
     * protected list and then the safe list.
     */
    function DetermineEnvironmentType(accountId: string, userArn: string): (r: EnvironmentType)
      reads this
      ensures Profiles.ArnEnvironment(userArn) in {Production, Staging, Development} ==>
                r == Profiles.ArnEnvironment(userArn)
      ensures Profiles.ArnEnvironment(userArn) == Testing ==> r == Development
      ensures Profiles.ArnEnvironment(userArn) == EnvironmentType.Unknown ==>
                r == if accountId in protectedAccounts then Protected
                     else if accountId in safeAccounts then Safe
                     else EnvironmentType.Unknown
    {
      var arnLower := Lower(userArn);
      Profiles.KeywordAndLonger(arnLower, "prod", "production");
      Profiles.KeywordPair(arnLower, "stage", "staging");
      DevOrTest(arnLower);
      if ContainsAny(arnLower, ["prod", "production"]) then Production
      else if ContainsAny(arnLower, ["stage", "staging"]) then Staging
      else if ContainsAny(arnLower, ["dev", "development", "test"]) then Development
      else if accountId in protectedAccounts then Protected
      else if accountId in safeAccounts then Safe
      else EnvironmentType.Unknown
    }

    /**
     * `verify_account_safety`, with the three answers the user would type as
     * parameters and the number of prompts actually shown as a result. A protected
     * account is refused before anything is asked; a production account needs the
     * exact risk phrase; an unknown account is asked whether to join the safe list
     * and then whether to continue.
     */
    method VerifyAccountSafety(accountInfo: AccountInfo, riskAnswer: string, addToSafeAnswer: string,
                               continueAnswer: string)
      returns (ok: bool, promptsShown: nat)
      modifies this`safeAccounts
      ensures accountInfo.accountId in protectedAccounts ==>
                !ok && promptsShown == 0 && safeAccounts == old(safeAccounts)
      ensures accountInfo.accountId !in protectedAccounts ==>
                promptsShown == match accountInfo.environmentType
                                case Production => 1
                                case Unknown => 2
                                case _ => 0
      ensures ok <==>
                accountInfo.accountId !in protectedAccounts
                && (accountInfo.environmentType == Production ==> riskAnswer == "I-UNDERSTAND-THE-RISKS")
                && (accountInfo.environmentType == EnvironmentType.Unknown ==> Lower(continueAnswer) == "y")
      ensures safeAccounts ==
                if accountInfo.accountId !in protectedAccounts && accountInfo.environmentType == EnvironmentType.Unknown
                   && Lower(addToSafeAnswer) == "y"
                then old(safeAccounts) + {accountInfo.accountId}
                else old(safeAccounts)
    {
      if accountInfo.accountId in protectedAccounts {
        return false, 0;
      }
      promptsShown := 0;
      if accountInfo.environmentType == Production {
        promptsShown := promptsShown + 1;
        if riskAnswer != "I-UNDERSTAND-THE-RISKS" {
          return false, promptsShown;
        }
      }
      if accountInfo.environmentType == EnvironmentType.Unknown {
        promptsShown := promptsShown + 1;
        if Lower(addToSafeAnswer) == "y" {
          safeAccounts := safeAccounts + {accountInfo.accountId};
        }
        promptsShown := promptsShown + 1;
        if Lower(continueAnswer) != "y" {
          return false, promptsShown;
        }
      }
      ok := true;
    }

    /**
     * `setup_aws_command` of aws_cleanup.py: records the profile and passes it on
     * the command line unless it is absent, empty or 'default'.
     */
    method SetupAwsCommand(profile: Option<string>) returns (baseCmd: seq<string>)
      modifies this`currentProfile
      ensures currentProfile == profile
      ensures profile.None? || profile.value == "" || profile.value == "default" ==> baseCmd == ["aws"]
      ensures profile.Some? && profile.value != "" && profile.value != "default" ==>
                baseCmd == ["aws", "--profile", profile.value]
    {
      currentProfile := profile;
      baseCmd := ["aws"];
      if profile.Some? && profile.value != "" && profile.value != "default" {
        baseCmd := baseCmd + ["--profile", profile.value];
      }
    }
  }

  /**
   * The two classifications agree on an account that is on neither list, except
   * that the legacy one reads a 'test' ARN as development.
   */
  lemma ClassificationsAgreeOffLists(legacy: LegacyProfileManager, current: Profiles.ProfileManager,
                                     accountId: string, userArn: string)
    requires accountId !in legacy.protectedAccounts && accountId !in legacy.safeAccounts
    requires accountId !in current.protectedAccounts && accountId !in current.safeAccounts
    ensures Profiles.ArnEnvironment(userArn) != Testing ==>
              legacy.DetermineEnvironmentType(accountId, userArn) == current.DetermineEnvironmentType(accountId, userArn)
    ensures Profiles.ArnEnvironment(userArn) == Testing ==>
              legacy.DetermineEnvironmentType(accountId, userArn) == Development
              && current.DetermineEnvironmentType(accountId, userArn) == Testing
  {
  }

  /**
   * The lists come first only in the newer classification: a protected account
   * whose ARN mentions 'prod' is PRODUCTION for the legacy code and PROTECTED for
   * the newer code.
   */
  lemma ProtectedListWinsOnlyInNewer(legacy: LegacyProfileManager, current: Profiles.ProfileManager,
                                     accountId: string, userArn: string)
    requires accountId in legacy.protectedAccounts && accountId in current.protectedAccounts
    requires Contains(Lower(userArn), "prod")
    ensures legacy.DetermineEnvironmentType(accountId, userArn) == Production
    ensures current.DetermineEnvironmentType(accountId, userArn) == Protected
  {
  }

  /** The legacy development keywords find exactly what 'dev' or 'test' finds. */
  lemma DevOrTest(s: string)
    ensures ContainsAny(s, ["dev", "development", "test"]) <==> Contains(s, "dev") || Contains(s, "test")
  {
    var keywords := ["dev", "development", "test"];
    assert keywords[0] == "dev" && keywords[2] == "test";
    if Contains(s, "development") {
      assert "dev" + "elopment" == "development";
      ContainsPrefixOfSub(s, "dev", "elopment");
    }
  }
}
