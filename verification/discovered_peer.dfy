/** Network endpoints and the peers a controller discovers by browsing. */
module DiscoveredPeers {

  /**
   The shapes of a network endpoint. Only `Service` endpoints (a named
   instance of an advertised service) become peers.
   */
  datatype Endpoint =
    | Service(name: string, serviceType: string, domain: string, interface: string)
    | HostPort(host: string, port: int)
    | Unix(path: string)
    | Url(url: string)

  /** A discovered peer; `id` is the name, so identity ignores the endpoint. */
  datatype DiscoveredPeer = DiscoveredPeer(id: string, name: string, endpoint: Endpoint)

  /** `DiscoveredPeer(name:endpoint:)`. */
  function MakePeer(name: string, endpoint: Endpoint): (p: DiscoveredPeer)
    ensures p.id == name && p.name == name && p.endpoint == endpoint
  {
    DiscoveredPeer(name, name, endpoint)
  }

  /** The identifier depends on the name alone. */
  lemma SameNameSameId(name: string, e1: Endpoint, e2: Endpoint)
    ensures MakePeer(name, e1).id == MakePeer(name, e2).id
    ensures MakePeer(name, e1) == MakePeer(name, e2) <==> e1 == e2
  {
  }
}
