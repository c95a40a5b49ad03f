/** The client's table of open tunnels and the handler that keeps it. */
module TunnelClient {
  import opened ByteStrings
  import opened TunnelMessages

  datatype Target = Target(port: int, proto: Bytes)

  type Targets = map<Bytes, Target>

  /** The table after one `msgTypeHttp` message. */
  function Apply(tunnels: Targets, data: Payload): Targets {
    match HandleHTTP(data)
    case Open(tunnelId, port, proto) => tunnels[tunnelId := Target(port, proto)]
    case Close(tunnelId) => tunnels - {tunnelId}
    case _ => tunnels
  }

  class Client {
    const httpPort: int
    var tunnels: Targets

    constructor (httpPort: int)
      ensures tunnels == map[] && this.httpPort == httpPort
    {
      this.httpPort, tunnels := httpPort, map[];
    }

    /** `handleHTTP`; for a tunnel request the result says which local port is dialled
        (`handleTunnelHTTP`). */
    method Handle(data: Payload) returns (action: Action, dial: Option<int>)
      modifies this
      ensures action == HandleHTTP(data)
      ensures tunnels == Apply(old(tunnels), data)
      ensures action.Proxy? ==>
                dial == Some(if action.tunnelId in tunnels && tunnels[action.tunnelId].port > 0
                             then tunnels[action.tunnelId].port else httpPort)
      ensures !action.Proxy? ==> dial == None
    {
      dial := None;
      action := HandleHTTP(data);
      match action {
        case Proxy(tunnelId, _, _) =>
          var port := httpPort;
          if tunnelId in tunnels && tunnels[tunnelId].port > 0 {
            port := tunnels[tunnelId].port;
          }
          dial := Some(port);
        case Open(tunnelId, port, proto) =>
          tunnels := tunnels[tunnelId := Target(port, proto)];
        case Close(tunnelId) =>
          tunnels := tunnels - {tunnelId};
        case _ =>
      }
    }
  }
}
