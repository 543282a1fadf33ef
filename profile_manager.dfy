/**
 * Profile and account management (src/awscleanup/core/profile_manager.py): the
 * safe and protected account sets, the account-list parser, the environment
 * classification of an account, the protected-account check, the profile list
 * merged from the two AWS configuration files, and the command base.
 *
 * The files themselves are not read here: a parsed configuration file is an
 * `Option` of its sections (None when the file is missing or does not parse), and
 * the section names of the credentials and config files are parameters.
 */
module Profiles {
  import opened Wrappers
  import opened Strings
  import opened Exceptions
  import opened Models
  import Config

  // ---------------------------------------------------------------- account lists

  /** A well-formed account entry: trimmed, with no comma in it. */
  predicate AccountEntry(a: string) {
    Trimmed(a) && ',' !in a
  }

  /** `{acc.strip() for acc in accounts.split(',') if acc.strip()}`. */
  function ParseAccountList(accounts: string): (r: set<string>)
    ensures forall a :: a in r ==> AccountEntry(a)
  {
    set p | p in Split(accounts, ',') && Strip(p) != [] :: Strip(p)
  }

  /**
   * What `save_safety_config` writes (`','.join(accounts)`, the set in whatever
   * order it iterates) reads back as the same set.
   */
  lemma AccountListOfJoin(accounts: seq<string>)
    requires forall k :: 0 <= k < |accounts| ==> AccountEntry(accounts[k])
    ensures ParseAccountList(Join(accounts, ',')) == set a | a in accounts
  {
    if accounts == [] {
      assert Split([], ',') == [[]];
    } else {
      SplitOfJoin(accounts, ',');
      forall a | a in accounts ensures Strip(a) == a && a != [] {
        StripUnchanged(a);
      }
    }
  }

  // ---------------------------------------------------------------- environment type

  /**
   * The ARN keyword search of `_determine_environment_type`, on the lowercased
   * ARN: production before staging before development before testing.
   */
  function ArnEnvironment(userArn: string): (r: EnvironmentType)
    ensures r == Production <==> Contains(Lower(userArn), "prod")
    ensures r == Staging <==>
              !Contains(Lower(userArn), "prod")
              && (Contains(Lower(userArn), "stage") || Contains(Lower(userArn), "staging"))
    ensures r == Development <==>
              !Contains(Lower(userArn), "prod") && !Contains(Lower(userArn), "stage")
              && !Contains(Lower(userArn), "staging") && Contains(Lower(userArn), "dev")
    ensures r == Testing <==>
              !Contains(Lower(userArn), "prod") && !Contains(Lower(userArn), "stage")
              && !Contains(Lower(userArn), "staging") && !Contains(Lower(userArn), "dev")
              && Contains(Lower(userArn), "test")
    ensures r != Protected && r != Safe
  {
    var arnLower := Lower(userArn);
    KeywordAndLonger(arnLower, "prod", "production");
    KeywordPair(arnLower, "stage", "staging");
    KeywordAndLonger(arnLower, "dev", "development");
    KeywordAndLonger(arnLower, "test", "testing");
    if ContainsAny(arnLower, ["prod", "production"]) then Production
    else if ContainsAny(arnLower, ["stage", "staging"]) then Staging
    else if ContainsAny(arnLower, ["dev", "development"]) then Development
    else if ContainsAny(arnLower, ["test", "testing"]) then Testing
    else EnvironmentType.Unknown
  }

  /** A keyword list made of a word and a longer word starting with it finds what the short word finds. */
  lemma KeywordAndLonger(s: string, a: string, long: string)
    requires StartsWith(long, a)
    ensures ContainsAny(s, [a, long]) <==> Contains(s, a)
  {
    if Contains(s, long) {
      assert a + long[|a|..] == long;
      ContainsPrefixOfSub(s, a, long[|a|..]);
    }
    assert [a, long][0] == a;
  }

  /** A two-word keyword list finds what either word finds. */
  lemma KeywordPair(s: string, a: string, b: string)
    ensures ContainsAny(s, [a, b]) <==> Contains(s, a) || Contains(s, b)
  {
    assert [a, b][0] == a && [a, b][1] == b;
  }

  // ---------------------------------------------------------------- profiles

  /** The section names of the credentials file other than 'default'. */
  function NonDefault(sections: seq<string>): (r: seq<string>)
    ensures forall p :: p in r <==> p in sections && p != "default"
  {
    if sections == [] then []
    else (if sections[0] != "default" then [sections[0]] else []) + NonDefault(sections[1..])
  }

  /** `p` is named by a config-file section "profile ...", with every "profile " deleted. */
  ghost predicate ConfigProfile(sections: seq<string>, p: string) {
    exists s :: s in sections && StartsWith(s, "profile ") && RemoveAll(s, "profile ") == p
  }

  /** `p` is one of the profiles the files name. */
  ghost predicate Named(credentialSections: Option<seq<string>>, configSections: Option<seq<string>>, p: string) {
    p == "default"
    || (credentialSections.Some? && p in credentialSections.value)
    || (configSections.Some? && ConfigProfile(configSections.value, p))
  }

  /**
   * `get_available_profiles`: 'default', the credentials file's sections, and the
   * config file's "profile ..." sections, sorted and without duplicates. A file
   * that is missing or fails to parse contributes nothing (None). A strictly
   * sorted list is fixed by its members (`Strings.StrictlySortedUnique`), so the
   * contract determines the result.
   */
  method GetAvailableProfiles(credentialSections: Option<seq<string>>, configSections: Option<seq<string>>)
    returns (r: seq<string>)
    ensures StrictlySorted(r)
    ensures "default" in r
    ensures forall p :: p in r <==> Named(credentialSections, configSections, p)
  {
    var profiles := ["default"];
    if credentialSections.Some? {
      profiles := profiles + NonDefault(credentialSections.value);
    }
    assert forall p :: p in profiles <==> Named(credentialSections, None, p);
    if configSections.Some? {
      var sections := configSections.value;
      for i := 0 to |sections|
        invariant forall p :: p in profiles <==> Named(credentialSections, Some(sections[..i]), p)
      {
        var section := sections[i];
        assert sections[..i + 1] == sections[..i] + [section];
        if StartsWith(section, "profile ") {
          var profileName := RemoveAll(section, "profile ");
          if profileName !in profiles {
            profiles := profiles + [profileName];
          }
        }
      }
      assert sections[..|sections|] == sections;
    }
    r := SortedDistinct(profiles);
  }

  // ---------------------------------------------------------------- the manager

  /**
   * AWSProfileManager. `account_info` is set only by the AWS calls, which are not
   * part of this model.
   */
  class ProfileManager {
    var currentProfile: Option<string>
    var awsCmdBase: seq<string>
    var safeAccounts: set<string>
    var protectedAccounts: set<string>

    /** `__init__` before `load_safety_config`, which `LoadSafetyConfig` models. */
    constructor ()
      ensures currentProfile == None && awsCmdBase == ["aws"]
      ensures safeAccounts == {} && protectedAccounts == {}
    {
      currentProfile := None;
      awsCmdBase := ["aws"];
      safeAccounts := {};
      protectedAccounts := {};
    }

    /**
     * `load_safety_config`: each list present in the file replaces the set it
     * names; a missing file changes nothing.
     */
    method LoadSafetyConfig(config: Option<map<string, map<string, string>>>)
      modifies this`safeAccounts, this`protectedAccounts
      ensures config.None? || "safe_accounts" !in config.value ==> safeAccounts == old(safeAccounts)
      ensures config.Some? && "safe_accounts" in config.value ==>
                safeAccounts == ParseAccountList(Config.GetString(config.value["safe_accounts"], "accounts", ""))
      ensures config.None? || "protected_accounts" !in config.value ==> protectedAccounts == old(protectedAccounts)
      ensures config.Some? && "protected_accounts" in config.value ==>
                protectedAccounts == ParseAccountList(Config.GetString(config.value["protected_accounts"], "accounts", ""))
    {
      if config.None? {
        return;
      }
      var sections := config.value;
      if "safe_accounts" in sections {
        var accounts := Config.GetString(sections["safe_accounts"], "accounts", "");
        safeAccounts := ParseAccountList(accounts);
      }
      if "protected_accounts" in sections {
        var accounts := Config.GetString(sections["protected_accounts"], "accounts", "");
        protectedAccounts := ParseAccountList(accounts);
      }
    }

    /**
     * `_determine_environment_type`: the account lists come first, the protected
     * list before the safe list, and only then the ARN keywords.
     */
    function DetermineEnvironmentType(accountId: string, userArn: string): (r: EnvironmentType)
      reads this
      ensures r == Protected <==> accountId in protectedAccounts
      ensures r == Safe <==> accountId !in protectedAccounts && accountId in safeAccounts
      ensures accountId !in protectedAccounts && accountId !in safeAccounts ==> r == ArnEnvironment(userArn)
    {
      if accountId in protectedAccounts then Protected
      else if accountId in safeAccounts then Safe
      else ArnEnvironment(userArn)
    }

    /** `verify_account_safety`: AccountSecurityError exactly for a protected account. */
    function VerifyAccountSafety(accountInfo: AccountInfo): (r: Result<bool, Error>)
      reads this
      ensures r.Failure? <==> accountInfo.accountId in protectedAccounts
      ensures r.Failure? ==> r.error == AccountSecurityError(accountInfo.accountId)
      ensures r.Success? ==> r.value
    {
      if accountInfo.accountId in protectedAccounts then Failure(AccountSecurityError(accountInfo.accountId))
      else Success(true)
    }

    /**
     * `setup_aws_command`: the profile travels in the environment (not modelled),
     * so the command base is always plain `aws`.
     */
    method SetupAwsCommand(profile: Option<string>) returns (baseCmd: seq<string>)
      modifies this`currentProfile, this`awsCmdBase
      ensures baseCmd == ["aws"] && awsCmdBase == baseCmd
      ensures currentProfile == profile
    {
      currentProfile := profile;
      baseCmd := ["aws"];
      awsCmdBase := baseCmd;
    }

    /** `add_safe_account`. */
    method AddSafeAccount(accountId: string)
      modifies this`safeAccounts
      ensures safeAccounts == old(safeAccounts) + {accountId}
    {
      safeAccounts := safeAccounts + {accountId};
    }

    /** `add_protected_account`. */
    method AddProtectedAccount(accountId: string)
      modifies this`protectedAccounts
      ensures protectedAccounts == old(protectedAccounts) + {accountId}
    {
      protectedAccounts := protectedAccounts + {accountId};
    }

    /** `remove_safe_account`: true, and the identifier gone, exactly when it was there. */
    method RemoveSafeAccount(accountId: string) returns (removed: bool)
      modifies this`safeAccounts
      ensures removed <==> accountId in old(safeAccounts)
      ensures safeAccounts == old(safeAccounts) - {accountId}
    {
      if accountId in safeAccounts {
        safeAccounts := safeAccounts - {accountId};
        removed := true;
      } else {
        removed := false;
      }
    }

    /** `remove_protected_account`: true, and the identifier gone, exactly when it was there. */
    method RemoveProtectedAccount(accountId: string) returns (removed: bool)
      modifies this`protectedAccounts
      ensures removed <==> accountId in old(protectedAccounts)
      ensures protectedAccounts == old(protectedAccounts) - {accountId}
    {
      if accountId in protectedAccounts {
        protectedAccounts := protectedAccounts - {accountId};
        removed := true;
      } else {
        removed := false;
      }
    }
  }
}
