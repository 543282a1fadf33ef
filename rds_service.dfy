/**
 * The RDS handler (src/awscleanup/services/rds_service.py): its status mapping and
 * the choice of deletion command by resource type. Discovery and cost estimation
 * are not part of this model; running the command is a parameter.
 */
module Rds {
  import opened Wrappers
  import opened Strings
  import opened Models

  /** The RDS statuses `_map_rds_state` knows, already lowercased. */
  const AvailableStatuses: set<string> := {"available", "backing-up", "modifying"}
  const PendingStatuses: set<string> := {"starting", "stopping", "creating"}

  /** `_map_rds_state`: the status is lowercased before the lookup; an unlisted status is UNKNOWN. */
  function MapRdsState(status: string): (r: ResourceState)
    ensures r == Available <==> Lower(status) in AvailableStatuses
    ensures r == Pending <==> Lower(status) in PendingStatuses
    ensures r == Stopped <==> Lower(status) == "stopped"
    ensures r == Deleting <==> Lower(status) == "deleting"
    ensures r == ResourceState.Unknown <==>
              Lower(status) !in AvailableStatuses + PendingStatuses + {"stopped", "deleting"}
    ensures r != Running && r != Terminated
  {
    var s := Lower(status);
    if s == "available" || s == "backing-up" || s == "modifying" then Available
    else if s == "starting" || s == "stopping" || s == "creating" then Pending
    else if s == "stopped" then Stopped
    else if s == "deleting" then Deleting
    else ResourceState.Unknown
  }

  /** Case does not matter: a status and its lowercase form map alike. */
  lemma MapRdsStateIgnoresCase(status: string)
    ensures MapRdsState(Lower(status)) == MapRdsState(status)
  {
    LowerIdempotent(status);
  }

  /** A resource type written as the CLI spells it: every '_' becomes '-'. */
  function Dashed(t: string): (r: string)
    ensures |r| == |t|
    ensures forall i :: 0 <= i < |t| ==> r[i] == (if t[i] == '_' then '-' else t[i])
  {
    seq(|t|, i requires 0 <= i < |t| => if t[i] == '_' then '-' else t[i])
  }

  /**
   * The CLI words for one RDS resource type `t`, whose dashed spelling is `d`:
   * the subcommand `delete-d` and the flag `--d-identifier`.
   */
  lemma CommandWords(t: string, d: string)
    requires |d| == |t|
    requires forall i :: 0 <= i < |t| ==> d[i] == (if t[i] == '_' then '-' else t[i])
    ensures "delete-" + Dashed(t) == "delete-" + d
    ensures "--" + Dashed(t) + "-identifier" == "--" + d + "-identifier"
  {
    DashedIs(t, d);
  }

  /** The CLI words for the three RDS resource types, spelled out. */
  lemma InstanceWords()
    ensures "delete-" + Dashed("db_instance") == "delete-db-instance"
    ensures "--" + Dashed("db_instance") + "-identifier" == "--db-instance-identifier"
  {
    CommandWords("db_instance", "db-instance");
  }

  lemma ClusterWords()
    ensures "delete-" + Dashed("db_cluster") == "delete-db-cluster"
    ensures "--" + Dashed("db_cluster") + "-identifier" == "--db-cluster-identifier"
  {
    CommandWords("db_cluster", "db-cluster");
  }

  lemma SnapshotWords()
    ensures "delete-" + Dashed("db_snapshot") == "delete-db-snapshot"
    ensures "--" + Dashed("db_snapshot") + "-identifier" == "--db-snapshot-identifier"
  {
    CommandWords("db_snapshot", "db-snapshot");
  }

  /** Dashed(t) is u when u agrees with t except that each '_' of t is '-' in u. */
  lemma DashedIs(t: string, u: string)
    requires |u| == |t|
    requires forall i :: 0 <= i < |t| ==> u[i] == (if t[i] == '_' then '-' else t[i])
    ensures Dashed(t) == u
  {
  }

  /**
   * The argument list `delete_resource` hands to the CLI for each resource type,
   * None for a type it does not handle.
   */
  function DeleteArguments(resourceType: string, region: string, identifier: string): (r: Option<seq<string>>)
    ensures r.None? <==> resourceType !in {"db_instance", "db_cluster", "db_snapshot"}
    ensures r.Some? ==> |r.value| >= 6 && r.value[0] == "rds" && r.value[2] == "--region"
                        && r.value[3] == region && r.value[5] == identifier
    ensures r.Some? ==> (|r.value| == 7 && r.value[6] == "--skip-final-snapshot" <==> resourceType != "db_snapshot")
    ensures r.Some? && resourceType == "db_snapshot" ==> |r.value| == 6
    ensures r.Some? ==> r.value[1] == "delete-" + Dashed(resourceType)
                        && r.value[4] == "--" + Dashed(resourceType) + "-identifier"
  {
    if resourceType == "db_instance" then
      InstanceWords();
      Some(["rds", "delete-db-instance", "--region", region, "--db-instance-identifier", identifier,
            "--skip-final-snapshot"])
    else if resourceType == "db_cluster" then
      ClusterWords();
      Some(["rds", "delete-db-cluster", "--region", region, "--db-cluster-identifier", identifier,
            "--skip-final-snapshot"])
    else if resourceType == "db_snapshot" then
      SnapshotWords();
      Some(["rds", "delete-db-snapshot", "--region", region, "--db-snapshot-identifier", identifier])
    else None
  }

  /**
   * `delete_resource`: True exactly when a command was chosen and it succeeded;
   * `commandSucceeds` stands for the CLI's exit status.
   */
  function DeleteResource(resource: Resource, commandSucceeds: bool): (r: bool)
    reads resource
    ensures r ==> DeleteArguments(resource.resourceType, resource.region, resource.identifier).Some?
    ensures resource.resourceType !in {"db_instance", "db_cluster", "db_snapshot"} ==> !r
    ensures resource.resourceType in {"db_instance", "db_cluster", "db_snapshot"} ==> (r <==> commandSucceeds)
  {
    match DeleteArguments(resource.resourceType, resource.region, resource.identifier)
    case None => false
    case Some(_) => commandSucceeds
  }
}
