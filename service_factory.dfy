/**
 * The handler registry (src/awscleanup/services/service_factory.py). The class-level
 * `_services` dict is shared by every use of the factory; here it is the state of
 * one object: its keys in insertion order, and the handler class each key names.
 */
module Factory {
  import opened Wrappers
  import opened Exceptions
  import opened Services

  /** A handler instance: its class and the command base it was created with. */
  datatype ServiceInstance = ServiceInstance(kind: ServiceKind, awsCmdBase: seq<string>)

  class ServiceFactory {
    var names: seq<string>
    var services: map<string, ServiceKind>

    /** The keys are listed once each, in insertion order, and are exactly the dict's keys. */
    ghost predicate Valid()
      reads this
    {
      (forall i, j :: 0 <= i < j < |names| ==> names[i] != names[j])
      && (forall n :: n in services <==> n in names)
    }

    /** The registry as the class body defines it. */
    constructor ()
      ensures Valid()
      ensures names == ["ec2", "s3"] && services == map["ec2" := Ec2, "s3" := S3]
    {
      names := ["ec2", "s3"];
      services := map["ec2" := Ec2, "s3" := S3];
    }

    /** `create_service`: ServiceNotSupportedError exactly for an unregistered name. */
    function CreateService(serviceName: string, awsCmdBase: seq<string>): (r: Result<ServiceInstance, Error>)
      reads this
      ensures r.Failure? <==> serviceName !in services
      ensures r.Failure? ==> r.error == ServiceNotSupportedError(serviceName)
      ensures r.Success? ==> r.value.kind == services[serviceName] && r.value.awsCmdBase == awsCmdBase
    {
      if serviceName !in services then Failure(ServiceNotSupportedError(serviceName))
      else Success(ServiceInstance(services[serviceName], awsCmdBase))
    }

    /** `get_supported_services`: the registered names in insertion order, each once. */
    function GetSupportedServices(): (r: seq<string>)
      reads this
      requires Valid()
      ensures forall n :: n in r <==> n in services
      ensures forall i, j :: 0 <= i < j < |r| ==> r[i] != r[j]
    {
      names
    }

    /**
     * `register_service`: adds the name, or replaces the class of a name already
     * there, which keeps its place in the order; the other entries are kept.
     */
    method RegisterService(serviceName: string, kind: ServiceKind)
      requires Valid()
      modifies this
      ensures Valid()
      ensures services == old(services)[serviceName := kind]
      ensures names == if serviceName in old(services) then old(names) else old(names) + [serviceName]
      ensures forall cmd :: CreateService(serviceName, cmd) == Success(ServiceInstance(kind, cmd))
      ensures serviceName in GetSupportedServices()
    {
      if serviceName !in services {
        names := names + [serviceName];
      }
      services := services[serviceName := kind];
    }
  }

  /** The initial registry supports ec2 and s3, and nothing else. */
  lemma InitialRegistry(f: ServiceFactory, serviceName: string, cmd: seq<string>)
    requires f.names == ["ec2", "s3"] && f.services == map["ec2" := Ec2, "s3" := S3]
    ensures f.CreateService(serviceName, cmd).Success? <==> serviceName == "ec2" || serviceName == "s3"
    ensures f.CreateService("ec2", cmd) == Success(ServiceInstance(Ec2, cmd))
    ensures f.CreateService("s3", cmd) == Success(ServiceInstance(S3, cmd))
  {
  }
}
