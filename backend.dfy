/**
 * The backend access capability the load balancer is given (the NSX-T API client), as a
 * value holding one function per call. Each reply is a function of the call's arguments, so
 * repeated calls with the same arguments give the same reply: `setupClasses` looks a pool name
 * up once per class, often the same name, and the model assumes those lookups agree.
 */
module Backend {
  import opened Wrappers

  /** An error returned by the backend, passed on unchanged. */
  datatype Error = Error(message: string)

  /** NSX-T `LbService`, the shared container: its id and its virtual-server members. */
  datatype Container = Container(id: string, virtualServerIds: seq<string>)

  /** The calls of the `Access` interface that the modelled code makes. A `None` reply of a
      find call is Go's nil pointer; a `Some` reply of update or delete is its error. */
  datatype Access = Access(
    findIPPoolByName: string -> Result<string, Error>,
    findLoadBalancerService: (string, string) -> Result<Option<Container>, Error>,
    createLoadBalancerService: string -> Result<Container, Error>,
    updateLoadBalancerService: Container -> Option<Error>,
    deleteLoadBalancerService: string -> Option<Error>,
    findLoadBalancerServiceForVirtualServer: (string, string) -> Result<Option<Container>, Error>)
}
