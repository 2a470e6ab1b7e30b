/** UDP endpoints and datagrams, as the sockets show them. */
module Net {
  import opened Machine

  datatype Endpoint = Endpoint(address: u32, port: u16)

  datatype Datagram = Datagram(source: Endpoint, destination: Endpoint, payload: seq<u8>)

  /** Why the network runner hands control back. */
  datatype NetworkExit = Disconnected(reason: u16) | BackendFailed
}
