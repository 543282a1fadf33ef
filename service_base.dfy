/**
 * The shared part of every service handler (src/awscleanup/services/base.py): the
 * classification of a failed AWS CLI call, the handling of its output, the tag
 * helpers, the state mapping, and the defaults the concrete handlers inherit.
 *
 * The CLI itself is not run: its exit code, its output streams and the parsed
 * JSON of its standard output are parameters.
 */
module Services {
  import opened Wrappers
  import opened Strings
  import opened Exceptions
  import opened Models

  // ---------------------------------------------------------------- handlers

  /** The concrete handler classes of the services package. */
  datatype ServiceKind = Ec2 | S3 | Rds | Elb | CloudWatch

  /** `get_service_name` of each handler. */
  function ServiceName(kind: ServiceKind): string {
    match kind
    case Ec2 => "ec2"
    case S3 => "s3"
    case Rds => "rds"
    case Elb => "elb"
    case CloudWatch => "cloudwatch"
  }

  /** `is_global_service`: False in the base class; only the S3 handler overrides it. */
  predicate IsGlobalService(kind: ServiceKind) {
    kind == S3
  }

  /** `get_supported_regions`: the base class's empty list (all regions); no handler overrides it. */
  function GetSupportedRegions(kind: ServiceKind): seq<string> {
    []
  }

  /**
   * Every handler but S3 is regional, every one is offered in all regions, and
   * each has a name of its own.
   */
  lemma HandlerDefaults(a: ServiceKind, b: ServiceKind)
    ensures IsGlobalService(a) <==> ServiceName(a) == "s3"
    ensures GetSupportedRegions(a) == []
    ensures ServiceName(a) == ServiceName(b) ==> a == b
  {
  }

  // ---------------------------------------------------------------- running a command

  /** Python's `s or fallback` on strings. */
  function OrElse(s: string, fallback: string): string {
    if s != "" then s else fallback
  }

  /**
   * How `_run_aws_command` reads a non-zero exit status. `stderr` is the captured
   * error output and `processText` the text of the exception itself, which stands
   * in when the error output is empty.
   */
  function ClassifyFailure(exitCode: int, stderr: string, processText: string): (r: DiscoveryFailure)
    requires exitCode != 0
    ensures r == CredentialsNotFound <==> exitCode == 253
    ensures exitCode == 254 ==> r == AccessDenied(OrElse(stderr, "Permission denied"))
    ensures r.AccessDenied? <==>
              exitCode == 254
              || (exitCode != 253
                  && (Contains(OrElse(stderr, processText), "UnauthorizedOperation")
                      || Contains(OrElse(stderr, processText), "AccessDenied")))
    ensures r.CommandFailed? ==> r.exitCode == exitCode && r.detail == OrElse(stderr, processText)
    ensures !r.UnparsableResponse?
  {
    if exitCode == 253 then CredentialsNotFound
    else if exitCode == 254 then AccessDenied(OrElse(stderr, "Permission denied"))
    else
      var errorMsg := OrElse(stderr, processText);
      if Contains(errorMsg, "UnauthorizedOperation") || Contains(errorMsg, "AccessDenied") then AccessDenied(errorMsg)
      else CommandFailed(exitCode, errorMsg)
  }

  /**
   * The outcome of `_run_aws_command`: the parsed output (`parsed`, None when it is
   * not valid JSON), `emptyObject` (the `{}`) for blank output, and a
   * ResourceDiscoveryError for every failure.
   */
  function CommandResult<J>(exitCode: int, stdout: string, stderr: string, processText: string,
                            parsed: Option<J>, emptyObject: J): (r: Result<J, Error>)
    ensures r.Failure? ==> r.error.ResourceDiscoveryError?
    ensures r.Failure? <==> exitCode != 0 || (!IsBlank(stdout) && parsed.None?)
    ensures exitCode == 0 && IsBlank(stdout) ==> r == Success(emptyObject)
    ensures exitCode == 0 && !IsBlank(stdout) && parsed.Some? ==> r == Success(parsed.value)
    ensures exitCode != 0 ==> r.error.failure == ClassifyFailure(exitCode, stderr, processText)
    ensures exitCode == 0 && r.Failure? ==> r.error.failure == UnparsableResponse
  {
    if exitCode != 0 then Failure(ResourceDiscoveryError(ClassifyFailure(exitCode, stderr, processText)))
    else if Strip(stdout) == [] then Success(emptyObject)
    else match parsed
      case None => Failure(ResourceDiscoveryError(UnparsableResponse))
      case Some(value) => Success(value)
  }

  // ---------------------------------------------------------------- tags

  /** `tag.get('Key', '')`. */
  function TagKey(tag: map<string, string>): string {
    if "Key" in tag then tag["Key"] else ""
  }

  /** `tag.get('Value', '')`. */
  function TagValue(tag: map<string, string>): string {
    if "Value" in tag then tag["Value"] else ""
  }

  /** No later tag has the same key as tag `i`. */
  predicate LastWithKey(tags: seq<map<string, string>>, i: nat)
    requires i < |tags|
  {
    forall j :: i < j < |tags| ==> TagKey(tags[j]) != TagKey(tags[i])
  }

  /** `{tag.get('Key', ''): tag.get('Value', '') for tag in tags}`: a later tag with the same key wins. */
  function TagDict(tags: seq<map<string, string>>): (r: map<string, string>)
    ensures r.Keys == set t | t in tags :: TagKey(t)
    ensures forall i :: 0 <= i < |tags| && LastWithKey(tags, i) ==> r[TagKey(tags[i])] == TagValue(tags[i])
  {
    if tags == [] then map[]
    else
      var front := tags[..|tags| - 1];
      var last := tags[|tags| - 1];
      var before := TagDict(front);
      assert tags == front + [last];
      assert forall i :: 0 <= i < |front| && LastWithKey(tags, i) ==> LastWithKey(front, i) && TagKey(front[i]) != TagKey(last) by {
        forall i | 0 <= i < |front| && LastWithKey(tags, i)
          ensures LastWithKey(front, i) && TagKey(front[i]) != TagKey(last)
        {
          assert tags[|tags| - 1] == last;
        }
      }
      before[TagKey(last) := TagValue(last)]
  }

  /** `_parse_tags`: an absent or empty list gives the empty dict. */
  function ParseTags(tags: Option<seq<map<string, string>>>): (r: map<string, string>)
    ensures tags.None? || tags.value == [] ==> r == map[]
    ensures tags.Some? ==> r == TagDict(tags.value)
  {
    if tags.None? || tags.value == [] then map[] else TagDict(tags.value)
  }

  /** `_get_name_from_tags`: the 'Name' tag's value whenever there is one, else the fallback or ''. */
  function GetNameFromTags(tags: Option<seq<map<string, string>>>, fallback: Option<string>): (r: string)
    ensures "Name" in ParseTags(tags) ==> r == ParseTags(tags)["Name"]
    ensures "Name" !in ParseTags(tags) ==> r == fallback.GetOr("")
  {
    var tagDict := ParseTags(tags);
    if "Name" in tagDict then tagDict["Name"] else fallback.GetOr("")
  }

  /** The last 'Name' tag decides the name, even when its value is empty. */
  lemma NameTagWins(tags: seq<map<string, string>>, i: nat, fallback: Option<string>)
    requires i < |tags| && TagKey(tags[i]) == "Name" && LastWithKey(tags, i)
    ensures GetNameFromTags(Some(tags), fallback) == TagValue(tags[i])
  {
    assert tags[i] in tags;
  }

  /** Without a 'Name' tag the fallback is used. */
  lemma NoNameTagFallsBack(tags: seq<map<string, string>>, fallback: Option<string>)
    requires forall j :: 0 <= j < |tags| ==> TagKey(tags[j]) != "Name"
    ensures GetNameFromTags(Some(tags), fallback) == fallback.GetOr("")
  {
  }

  // ---------------------------------------------------------------- states

  /** What `_determine_state` receives: a dict with a 'Name' field, or anything else. */
  datatype StateInfo =
    | StateDict(fields: map<string, string>)
    | StateText(text: string)   // `str(state_info)`

  /** The lookup of `_determine_state` on a state name already lowercased. */
  function StateFromName(stateName: string): (r: ResourceState)
    ensures r != ResourceState.Unknown ==> StateValue(r) == stateName
  {
    if stateName == "running" then Running
    else if stateName == "stopped" then Stopped
    else if stateName == "pending" then Pending
    else if stateName == "terminated" then Terminated
    else if stateName == "available" then Available
    else if stateName == "deleting" then Deleting
    else ResourceState.Unknown
  }

  /** Every state's printed value reads back as that state, UNKNOWN included. */
  lemma StateRoundTrip(s: ResourceState)
    ensures StateFromName(StateValue(s)) == s
  {
  }

  /** Every state's value reads back as that state, all at once. */
  lemma AllStatesRoundTrip()
    ensures forall s :: StateFromName(StateValue(s)) == s
  {
    forall s ensures StateFromName(StateValue(s)) == s {
      StateRoundTrip(s);
    }
  }

  /** The text `_determine_state` looks up: the dict's 'Name' (or '') or the text itself. */
  function LookedUpText(stateInfo: StateInfo): string {
    match stateInfo
    case StateDict(fields) => if "Name" in fields then fields["Name"] else ""
    case StateText(text) => text
  }

  /**
   * `_determine_state`: the looked-up text, lowercased, gives the state whose value it
   * is, and UNKNOWN when it is no state's value.
   */
  function DetermineState(stateInfo: StateInfo): (r: ResourceState)
    ensures stateInfo.StateDict? && "Name" !in stateInfo.fields ==> r == ResourceState.Unknown
    ensures r != ResourceState.Unknown ==> StateValue(r) == Lower(LookedUpText(stateInfo))
    ensures forall s :: s != ResourceState.Unknown && StateValue(s) == Lower(LookedUpText(stateInfo)) ==> r == s
  {
    AllStatesRoundTrip();
    StateFromName(Lower(LookedUpText(stateInfo)))
  }

  /** The lookup ignores case: a state text and its lowercase form give the same state. */
  lemma DetermineStateIgnoresCase(text: string)
    ensures DetermineState(StateText(text)) == DetermineState(StateText(Lower(text)))
    ensures DetermineState(StateText(text)) == DetermineState(StateDict(map["Name" := text]))
  {
    LowerIdempotent(text);
  }
}
