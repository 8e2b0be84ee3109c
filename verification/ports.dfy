/** The process-wide table of local ports in use. `ConnectionImpl` keeps it as a
    map from port to `true` that is only ever written; it is modelled as the
    set of its keys. */
module Ports {

  /** Record `port` as used, as the connection constructor does. */
  function Register(used: set<int>, port: int): (r: set<int>)
    ensures port in r
    ensures used <= r
    ensures forall p :: p in r && p != port ==> p in used
  {
    used + {port}
  }

  /** Registering an already used port leaves the table as it was; in
      particular, a listener's children register the listener's own port and
      change nothing. */
  lemma RegisterKnownPort(used: set<int>, port: int)
    requires port in used
    ensures Register(used, port) == used
  {
  }
}
