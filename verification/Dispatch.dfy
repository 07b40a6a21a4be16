/** CInstance::sendEvent and passEvent: how the route of an event is pushed and popped. */
module Dispatch {
  import opened Prelude
  import opened Routes

  /** Where passEvent hands an event on; Refused where it throws. */
  datatype Target =
    | ToService(service: int32)
    | ToListener(ptr: uint64)
    | ToProxyPolled
    | ToProxyThreaded
    | ToRpc(socket: int64)
    | Refused

  /** The last hop decides, and is taken off, except for an object handler, which its proxy needs. */
  function PassTo(r: Route): (Target, Route)
  {
    if r == [] then (Refused, [])
    else
      var rest := r[..|r| - 1];
      match r[|r| - 1]
      case LocalService(s) => (ToService(s), rest)
      case Listener(p) => (ToListener(p), rest)
      case HandlerPolled(_) => (ToProxyPolled, r)
      case HandlerThreaded(_) => (ToProxyThreaded, r)
      case RemoteAddr(id) => (ToRpc(id), rest)
      case SocketRoute(_) => (Refused, rest)
      case Thread(_) => (Refused, rest)
  }

  /** Each kind of hop has its own receiver, and only the two kinds of object handler stay on the route. */
  lemma PassToMeans(r: Route, h: Hop)
    ensures var (to, rest) := PassTo(r + [h]);
            && (to.ToService? <==> h.LocalService?) && (to.ToListener? <==> h.Listener?)
            && (to.ToRpc? <==> h.RemoteAddr?)
            && (to.ToProxyPolled? <==> h.HandlerPolled?) && (to.ToProxyThreaded? <==> h.HandlerThreaded?)
            && (to.Refused? <==> h.SocketRoute? || h.Thread?)
            && (to.ToService? ==> to.service == h.service) && (to.ToListener? ==> to.ptr == h.ptr)
            && (to.ToRpc? ==> to.socket == h.socket)
            && rest == if to.ToProxyPolled? || to.ToProxyThreaded? then r + [h] else r
  {
    assert (r + [h])[..|r|] == r;
  }

  method PassEvent(route: RouteT) returns (to: Target)
    modifies route
    ensures (to, route.container) == PassTo(old(route.container))
  {
    var hop := route.PopBack();
    if hop.None? {
      return Refused;
    }
    match hop.value
    case LocalService(s) =>
      to := ToService(s);
    case Listener(p) =>
      to := ToListener(p);
    case HandlerPolled(_) =>
      route.PushBack(hop.value);
      to := ToProxyPolled;
    case HandlerThreaded(_) =>
      route.PushBack(hop.value);
      to := ToProxyThreaded;
    case RemoteAddr(id) =>
      to := ToRpc(id);
    case _ =>
      to := Refused;
  }

  /** sendEvent to a local service or listener: the receiver's hop goes on top. */
  method SendEvent(route: RouteT, receiver: Hop)
    requires receiver.LocalService? || receiver.Listener?
    modifies route
    ensures route.container == old(route.container) + [receiver]
    ensures PassTo(route.container) == ((if receiver.LocalService? then ToService(receiver.service) else ToListener(receiver.ptr)),
                                        old(route.container))
  {
    route.PushBack(receiver);
  }
}
