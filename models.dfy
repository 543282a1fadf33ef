/**
 * Core data models (src/awscleanup/core/models.py): the enumerations, the resource
 * record whose `dependents` list the dependency-map builders rewrite in place, the
 * account and service records, and the cleanup session's selection set.
 */
module Models {
  import opened Wrappers

  datatype EnvironmentType = Production | Staging | Development | Testing | Protected | Safe | Unknown

  datatype ResourceState = Running | Stopped | Pending | Terminated | Available | Deleting | Unknown

  /** The enumeration's values, as the tool prints and parses them. */
  function StateValue(s: ResourceState): string {
    match s
    case Running => "running"
    case Stopped => "stopped"
    case Pending => "pending"
    case Terminated => "terminated"
    case Available => "available"
    case Deleting => "deleting"
    case Unknown => "unknown"
  }

  /**
   * AWSResource. Only `dependents` is ever updated after construction; `metadata`
   * and `state` play no part in the behaviour modelled here and are left out.
   */
  class Resource {
    const service: string
    const resourceType: string
    const identifier: string
    const name: string
    const region: string
    const dependencies: seq<string>
    var dependents: seq<string>

    constructor (service: string, resourceType: string, identifier: string, name: string,
                 region: string, dependencies: seq<string>, dependents: seq<string>)
      ensures this.service == service && this.resourceType == resourceType
      ensures this.identifier == identifier && this.name == name && this.region == region
      ensures this.dependencies == dependencies && this.dependents == dependents
    {
      this.service := service;
      this.resourceType := resourceType;
      this.identifier := identifier;
      this.name := name;
      this.region := region;
      this.dependencies := dependencies;
      this.dependents := dependents;
    }

    /** `display_name`: the name, or the identifier when the name is empty. */
    function DisplayName(): (r: string)
      ensures name != "" ==> r == name
      ensures name == "" ==> r == identifier
      ensures r == "" <==> name == "" && identifier == ""
    {
      if name != "" then name else identifier
    }

    /** `full_identifier`: "service:resource_type:identifier". */
    function FullIdentifier(): (r: string)
      ensures |r| == |service| + |resourceType| + |identifier| + 2
    {
      service + ":" + resourceType + ":" + identifier
    }
  }

  /** Splits at the first `sep`: the text before it and the text after it. */
  function SplitOnce(s: string, sep: char): (r: Option<(string, string)>)
    ensures r.Some? ==> s == r.value.0 + [sep] + r.value.1 && sep !in r.value.0
    ensures r.None? <==> sep !in s
  {
    if s == [] then None
    else if s[0] == sep then Some(([], s[1..]))
    else match SplitOnce(s[1..], sep)
      case None => None
      case Some((a, b)) => Some(([s[0]] + a, b))
  }

  /** Reads "service:type:identifier" back; the identifier itself may contain ':' (an ARN does). */
  function ParseFullIdentifier(s: string): Option<(string, string, string)> {
    match SplitOnce(s, ':')
    case None => None
    case Some((service, rest)) =>
      match SplitOnce(rest, ':')
      case None => None
      case Some((resourceType, identifier)) => Some((service, resourceType, identifier))
  }

  lemma {:induction false} SplitOnceOfJoin(a: string, sep: char, b: string)
    requires sep !in a
    ensures SplitOnce(a + [sep] + b, sep) == Some((a, b))
  {
    if a != [] {
      assert (a + [sep] + b)[0] == a[0] && (a + [sep] + b)[1..] == a[1..] + [sep] + b;
      SplitOnceOfJoin(a[1..], sep, b);
      assert [a[0]] + a[1..] == a;
    }
  }

  /**
   * The full identifier carries its three parts without loss whenever the service
   * and resource type contain no ':'. In particular, two resources whose full
   * identifiers are equal agree on service, type and identifier.
   */
  lemma FullIdentifierRoundTrip(r: Resource)
    requires ':' !in r.service && ':' !in r.resourceType
    ensures ParseFullIdentifier(r.FullIdentifier()) == Some((r.service, r.resourceType, r.identifier))
  {
    var rest := r.resourceType + ":" + r.identifier;
    assert r.FullIdentifier() == r.service + [':'] + rest;
    SplitOnceOfJoin(r.service, ':', rest);
    SplitOnceOfJoin(r.resourceType, ':', r.identifier);
  }

  lemma FullIdentifierInjective(r1: Resource, r2: Resource)
    requires ':' !in r1.service && ':' !in r1.resourceType
    requires ':' !in r2.service && ':' !in r2.resourceType
    requires r1.FullIdentifier() == r2.FullIdentifier()
    ensures r1.service == r2.service && r1.resourceType == r2.resourceType && r1.identifier == r2.identifier
  {
    FullIdentifierRoundTrip(r1);
    FullIdentifierRoundTrip(r2);
  }

  /** AWSAccountInfo: never updated after construction. */
  datatype AccountInfo = AccountInfo(
    accountId: string, userArn: string, userId: string, profile: string, region: string,
    environmentType: EnvironmentType)
  {
    predicate IsProduction() { environmentType == Production }
    predicate IsProtected() { environmentType == Protected }
  }

  /** An account is never classified as both production and protected. */
  lemma AccountFlagsExclusive(a: AccountInfo)
    ensures a.IsProduction() ==> !a.IsProtected()
    ensures a.IsProduction() <==> a.environmentType == Production
    ensures a.IsProtected() <==> a.environmentType == Protected
  {
  }

  /** ServiceConfig. */
  datatype ServiceConfig = ServiceConfig(
    name: string, enabled: bool, protected: bool, discoveryRegions: Option<seq<string>>)
  {
    /** `is_allowed`: a protected or disabled service is never operated on. */
    function IsAllowed(): (r: bool)
      ensures protected ==> !r
      ensures !enabled ==> !r
      ensures enabled && !protected ==> r
    {
      enabled && !protected
    }
  }

  // ---------------------------------------------------------------- selection

  /** `[r for r in resources if r.identifier in selected]`. */
  function SelectById(resources: seq<Resource>, selected: set<string>): (r: seq<Resource>)
    ensures forall x :: x in r ==> x in resources && x.identifier in selected
    ensures forall x :: x in resources && x.identifier in selected ==> x in r
    ensures |r| <= |resources|
  {
    if resources == [] then []
    else (if resources[0].identifier in selected then [resources[0]] else []) + SelectById(resources[1..], selected)
  }

  /**
   * The selection keeps catalog order: selecting from a catalog made of two parts is
   * selecting from each part and putting the results one after the other.
   */
  lemma {:induction false} SelectByIdConcat(a: seq<Resource>, b: seq<Resource>, selected: set<string>)
    ensures SelectById(a + b, selected) == SelectById(a, selected) + SelectById(b, selected)
  {
    if a != [] {
      var head := if a[0].identifier in selected then [a[0]] else [];
      assert (a + b)[0] == a[0] && (a + b)[1..] == a[1..] + b;
      assert SelectById(a + b, selected) == head + SelectById(a[1..] + b, selected);
      SelectByIdConcat(a[1..], b, selected);
      ConcatAssociative(head, SelectById(a[1..], selected), SelectById(b, selected));
    } else {
      assert a + b == b;
    }
  }

  /** Concatenation regroups freely; stated once, away from the facts of any one proof. */
  lemma ConcatAssociative<T>(a: seq<T>, b: seq<T>, c: seq<T>)
    ensures a + (b + c) == (a + b) + c
  {
  }

  /** The selection set after toggling `id`. */
  function Toggled(selected: set<string>, id: string): (r: set<string>)
    ensures id in r <==> id !in selected
    ensures forall x :: x != id ==> (x in r <==> x in selected)
  {
    if id in selected then selected - {id} else selected + {id}
  }

  /** Toggling the same identifier twice gives back the original selection. */
  lemma ToggleTwiceRestores(selected: set<string>, id: string)
    ensures Toggled(Toggled(selected, id), id) == selected
  {
  }

  /** CleanupSession. */
  class CleanupSession {
    var accountInfo: AccountInfo
    var resources: seq<Resource>
    var selectedResources: set<string>
    var serviceConfigs: map<string, ServiceConfig>

    constructor (accountInfo: AccountInfo)
      ensures this.accountInfo == accountInfo
      ensures resources == [] && selectedResources == {} && serviceConfigs == map[]
    {
      this.accountInfo := accountInfo;
      resources := [];
      selectedResources := {};
      serviceConfigs := map[];
    }

    /** `get_selected_resources`: the selected resources, in catalog order. */
    function GetSelectedResources(): (r: seq<Resource>)
      reads this
      ensures r == SelectById(resources, selectedResources)
    {
      SelectById(resources, selectedResources)
    }

    /**
     * `is_resource_selected`: true exactly when the id is in the selection, so a
     * catalog resource carrying it is among the selected resources.
     */
    function IsResourceSelected(resourceId: string): (r: bool)
      reads this
      ensures r <==> resourceId in selectedResources
      ensures forall i :: 0 <= i < |resources| && resources[i].identifier == resourceId ==>
                (r <==> resources[i] in GetSelectedResources())
    {
      resourceId in selectedResources
    }

    /** `toggle_resource_selection`: flips one identifier; the result says whether it is now selected. */
    method ToggleResourceSelection(resourceId: string) returns (nowSelected: bool)
      modifies this`selectedResources
      ensures selectedResources == Toggled(old(selectedResources), resourceId)
      ensures nowSelected <==> resourceId !in old(selectedResources)
      ensures nowSelected <==> IsResourceSelected(resourceId)
    {
      if resourceId in selectedResources {
        selectedResources := selectedResources - {resourceId};
        nowSelected := false;
      } else {
        selectedResources := selectedResources + {resourceId};
        nowSelected := true;
      }
    }
  }
}
