/** The client registry (`ClientContext`): add, update, delete and look up
    client records. Each mutating call is one atomic transition. */
module ClientRegistry {
  import opened Common
  import opened Records
  import opened Seqs
  import opened Text

  /** The fields a caller supplies to `addClient`; id and creation date are assigned. */
  datatype NewClient = NewClient(name: string, email: string, phone: Option<string>, company: Option<string>)

  /** `Partial<Client>`: every field may be supplied or left out. Supplying an
      optional field as `None` clears it. */
  datatype ClientPatch = ClientPatch(
    id: Option<string>,
    name: Option<string>,
    email: Option<string>,
    phone: Option<Option<string>>,
    company: Option<Option<string>>,
    createdAt: Option<Timestamp>)

  /** The registry's initial contents. */
  function Seed(): seq<Client> {
    [Client("2", "Client User", "client@example.com", Some("(123) 456-7890"),
            Some("Client Company Inc."), 1672531200000)]
  }

  predicate EmailInUse(clients: seq<Client>, email: string) {
    exists i :: 0 <= i < |clients| && clients[i].email == email
  }

  /** `addClient`: rejects an email some client already has; otherwise
      appends a record whose id is the decimal string of the new length. */
  function AddClient(clients: seq<Client>, input: NewClient, now: Timestamp): (r: Reply<seq<Client>>)
    ensures r.status.Failed? <==> exists i :: 0 <= i < |clients| && clients[i].email == input.email
    ensures r.status.Failed? ==> r.status.error == DuplicateEmail && r.state == clients
    ensures r.status.Ok? ==> |r.state| == |clients| + 1 && r.state[..|clients|] == clients
    ensures r.status.Ok? ==>
      r.state[|clients|] == Client(NatToString(|clients| + 1), input.name, input.email,
                                   input.phone, input.company, now)
  {
    if EmailInUse(clients, input.email) then Reply(clients, Failed(DuplicateEmail))
    else
      var added := Client(NatToString(|clients| + 1), input.name, input.email,
                          input.phone, input.company, now);
      Reply(clients + [added], Ok)
  }

  /** `{ ...client, ...patch }`: supplied fields win, the rest are kept. */
  function Merge(c: Client, patch: ClientPatch): Client {
    Client(patch.id.GetOr(c.id), patch.name.GetOr(c.name), patch.email.GetOr(c.email),
           patch.phone.GetOr(c.phone), patch.company.GetOr(c.company),
           patch.createdAt.GetOr(c.createdAt))
  }

  /** `updateClient`: merges the patch into every record with the id, in
      place; no uniqueness check on the resulting email or id. */
  function UpdateClient(clients: seq<Client>, id: string, patch: ClientPatch): (r: seq<Client>)
    ensures |r| == |clients|
    ensures forall i :: 0 <= i < |clients| && clients[i].id != id ==> r[i] == clients[i]
    ensures forall i :: 0 <= i < |clients| && clients[i].id == id ==>
      && r[i].id == patch.id.GetOr(clients[i].id)
      && r[i].name == patch.name.GetOr(clients[i].name)
      && r[i].email == patch.email.GetOr(clients[i].email)
      && r[i].phone == patch.phone.GetOr(clients[i].phone)
      && r[i].company == patch.company.GetOr(clients[i].company)
      && r[i].createdAt == patch.createdAt.GetOr(clients[i].createdAt)
    decreases |clients|
  {
    if |clients| == 0 then []
    else
      var head := if clients[0].id == id then Merge(clients[0], patch) else clients[0];
      [head] + UpdateClient(clients[1..], id, patch)
  }

  /** Updating an id no record has changes nothing. */
  lemma UpdateAbsentIsNoOp(clients: seq<Client>, id: string, patch: ClientPatch)
    requires forall i :: 0 <= i < |clients| ==> clients[i].id != id
    ensures UpdateClient(clients, id, patch) == clients
  {
  }

  /** Applying the same update twice is the same as applying it once: either
      the patch renames the matched records away from `id`, or merging again
      changes nothing. */
  lemma UpdateIdempotent(clients: seq<Client>, id: string, patch: ClientPatch)
    ensures UpdateClient(UpdateClient(clients, id, patch), id, patch) == UpdateClient(clients, id, patch)
  {
  }

  /** Nothing stops an update from giving a client another client's email. */
  lemma UpdateCanDuplicateEmail()
    ensures var clients := [Client("1", "A", "a@x.com", None, None, 0),
                            Client("2", "B", "b@x.com", None, None, 0)];
            var patch := ClientPatch(None, None, Some("a@x.com"), None, None, None);
            var r := UpdateClient(clients, "2", patch);
            r[0].email == r[1].email && r[0].id != r[1].id
  {
  }

  /** `deleteClient`: keeps exactly the records with another id, in order;
      documents that point at the removed client are left alone. */
  function DeleteClient(clients: seq<Client>, id: string): (r: seq<Client>)
    ensures forall i :: 0 <= i < |r| ==> r[i] in clients && r[i].id != id
    ensures forall i :: 0 <= i < |clients| && clients[i].id != id ==> clients[i] in r
    ensures IsSubseq(r, clients)
    ensures (forall i :: 0 <= i < |clients| ==> clients[i].id != id) ==> r == clients
    ensures forall c: Client :: multiset(r)[c] == if c.id != id then multiset(clients)[c] else 0
  {
    FilterMultiset(clients, (c: Client) => c.id != id);
    Filter(clients, (c: Client) => c.id != id)
  }

  /** Deleting twice is deleting once. */
  lemma DeleteIdempotent(clients: seq<Client>, id: string)
    ensures DeleteClient(DeleteClient(clients, id), id) == DeleteClient(clients, id)
  {
  }

  /** `getClient`: the first record with the id, if any. */
  function GetClient(clients: seq<Client>, id: string): (r: Option<Client>)
    ensures r.None? <==> forall i :: 0 <= i < |clients| ==> clients[i].id != id
    ensures r.Some? ==> exists i :: 0 <= i < |clients| && clients[i] == r.value && r.value.id == id
                                    && forall j :: 0 <= j < i ==> clients[j].id != id
  {
    match FindFirst(clients, (c: Client) => c.id == id)
    case None => None
    case Some(k) => Some(clients[k])
  }

  /** After a delete, no record with that id can be looked up. */
  lemma DeleteThenGetIsNone(clients: seq<Client>, id: string)
    ensures GetClient(DeleteClient(clients, id), id) == None
  {
  }

  /** Looking up in an extended registry finds an earlier record first. */
  lemma GetClientAppend(clients: seq<Client>, x: Client, id: string)
    ensures GetClient(clients + [x], id)
              == if GetClient(clients, id).Some? then GetClient(clients, id)
                 else if x.id == id then Some(x) else None
  {
    var s := clients + [x];
    var found := GetClient(s, id);
    if found.Some? {
      var i' :| 0 <= i' < |s| && s[i'] == found.value && found.value.id == id
                && forall j :: 0 <= j < i' ==> s[j].id != id;
      match GetClient(clients, id)
      case Some(c) =>
        var i :| 0 <= i < |clients| && clients[i] == c && c.id == id
                 && forall j :: 0 <= j < i ==> clients[j].id != id;
        assert s[i] == clients[i];
        assert i' == i;
      case None =>
        assert i' == |clients|;
    } else {
      assert forall i :: 0 <= i < |clients| ==> s[i] == clients[i];
      assert s[|clients|] == x;
    }
  }

  /** A successful add can be read back by its new id exactly when no earlier
      record already carries that id; otherwise the lookup finds the older one. */
  lemma AddThenGet(clients: seq<Client>, input: NewClient, now: Timestamp)
    requires AddClient(clients, input, now).status.Ok?
    ensures var r := AddClient(clients, input, now);
            var newId := NatToString(|clients| + 1);
            GetClient(r.state, newId)
              == if GetClient(clients, newId).Some? then GetClient(clients, newId)
                 else Some(r.state[|clients|])
  {
    var r := AddClient(clients, input, now);
    assert r.state == clients + [r.state[|clients|]];
    GetClientAppend(clients, r.state[|clients|], NatToString(|clients| + 1));
  }

  /** The seeded client has id "2" in a registry of length one, so the very
      first add produces a second record with id "2", and looking it up
      finds the seeded record instead. */
  lemma SeedAddCollides(input: NewClient, now: Timestamp)
    requires input.email != "client@example.com"
    ensures var r := AddClient(Seed(), input, now);
            && r.status.Ok?
            && r.state[1].id == "2" && r.state[0].id == "2"
            && GetClient(r.state, "2") == Some(Seed()[0])
  {
  }

  /** Deleting a record whose id no other record shares removes exactly
      that record, so any other record, the last one included, remains. */
  lemma DeleteUniqueKeepsLast(clients: seq<Client>, k: nat)
    requires k < |clients| - 1
    requires forall i :: 0 <= i < |clients| && i != k ==> clients[i].id != clients[k].id
    ensures |DeleteClient(clients, clients[k].id)| == |clients| - 1
    ensures clients[|clients| - 1] in DeleteClient(clients, clients[k].id)
  {
    FilterDropsOne(clients, (c: Client) => c.id != clients[k].id, k);
  }

  /** Ids come from the current length, so when the registry's last record
      holds the id equal to its length, deleting any other record and adding
      a new one re-issues that last record's id. */
  lemma DeleteThenAddCollides(clients: seq<Client>, k: nat, input: NewClient, now: Timestamp)
    requires k < |clients| - 1
    requires forall i :: 0 <= i < |clients| && i != k ==> clients[i].id != clients[k].id
    requires clients[|clients| - 1].id == NatToString(|clients|)
    requires forall i :: 0 <= i < |clients| ==> clients[i].email != input.email
    ensures var remaining := DeleteClient(clients, clients[k].id);
            var r := AddClient(remaining, input, now);
            && r.status.Ok?
            && r.state[|remaining|].id == clients[|clients| - 1].id
            && clients[|clients| - 1] in remaining
  {
    var remaining := DeleteClient(clients, clients[k].id);
    DeleteUniqueKeepsLast(clients, k);
    assert !EmailInUse(remaining, input.email) by {
      forall i | 0 <= i < |remaining| ensures remaining[i].email != input.email {
        assert remaining[i] in clients;
      }
    }
  }
}
