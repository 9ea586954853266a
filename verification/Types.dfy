/** The records shared by the database, the service, the store and the renderer. */
module Types {
  import opened Wrappers

  /** db.Client: one row of the clients table. */
  datatype Client = Client(id: nat, name: string, publicKey: string, address: string, enabled: bool,
                           note: Option<string>, createdAt: int, updatedAt: int)

  /** clientstore.Entry, clients.ReplaceEntry and clientsfile.Client: the store's projection of a client. */
  datatype Entry = Entry(name: string, address: string, publicKey: string)

  function ToEntry(c: Client): Entry {
    Entry(c.name, c.address, c.publicKey)
  }

  function ToEntries(cs: seq<Client>): (es: seq<Entry>)
    ensures |es| == |cs| && forall i :: 0 <= i < |cs| ==> es[i] == ToEntry(cs[i])
  {
    seq(|cs|, i requires 0 <= i < |cs| => ToEntry(cs[i]))
  }
}
