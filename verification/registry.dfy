/**
 The connection registry of map.go.

 Go keeps two maps of pointers to shared `connection` records. The model
 names each record by a `ConnId`: `private` maps the big-endian `uint32`
 of a virtual IPv4 address to an id, `public` maps the `String()` of a UDP
 address to an id, and `conns` holds the records themselves. Updating a
 record through either map is an update of `conns`.
 */
module Registry {
  import opened Bytes
  import opened Outcomes
  import opened Net
  import opened Crypto

  /** Connection lifecycle: the constants 0, 1 and 2 of map.go. */
  datatype State = ConnectionClose | HandShakeServerSent | ConnectionReady

  type ConnId = nat

  /** `connection`. `mtime` is a clock reading; 0 is Go's zero `time.Time`. */
  datatype Connection = Connection(
    publicKey: Option<VerifyKey>,
    encrypt: Option<Cipher>,
    mtime: nat,
    state: State,
    session: Bytes8,
    pubAddr: Option<UdpAddr>,
    priAddr: IP)

  /** `connTable`, plus the store of records and the next unused id (the
      allocator standing in for `&connection{}`). */
  datatype ConnTable = ConnTable(
    private: map<Uint32, ConnId>,
    public: map<string, ConnId>,
    conns: map<ConnId, Connection>,
    nextId: ConnId)

  /** Pointer sanity: every id reachable from either map names a record,
      and no record uses an id the allocator has not handed out. */
  ghost predicate Linked(t: ConnTable)
  {
    && (forall k | k in t.private :: t.private[k] in t.conns)
    && (forall a | a in t.public :: t.public[a] in t.conns)
    && (forall id | id in t.conns :: id < t.nextId)
  }

  /** The registry invariant the relay keeps: records exist only for the
      configured hosts, each filed under the key of its own virtual
      address, and a record is bound to a public address only if it has a
      verification key. */
  ghost predicate Valid(t: ConnTable)
  {
    && Linked(t)
    && (forall k | k in t.private :: IpToUint32(t.conns[t.private[k]].priAddr) == Ok(k))
    && (forall id | id in t.conns :: FiledUnderOwnKey(t, id))
    && (forall a | a in t.public :: t.conns[t.public[a]].publicKey.Some?)
  }

  /** The record is reachable from `private` under its own address's key. */
  ghost predicate FiledUnderOwnKey(t: ConnTable, id: ConnId)
    requires id in t.conns
  {
    var k := IpToUint32(t.conns[id].priAddr);
    k.Ok? && k.value in t.private && t.private[k.value] == id
  }

  /** The table `getConnTable` creates on first use. */
  function NewConnTable(): (t: ConnTable)
    ensures Valid(t)
    ensures t.private == map[] && t.public == map[]
  {
    ConnTable(map[], map[], map[], 0)
  }

  /** `ipToUint32`: only IPv4 addresses (either form) have a key, and the
      key is the big-endian reading of the 4-byte form. */
  function IpToUint32(ip: IP): (r: Result<Uint32>)
    ensures r.Ok? <==> To4(ip).Some?
    ensures r.Err? ==> r.error == InvalidAddress
    ensures r.Ok? ==> r.value == BigEndianUint32(To4(ip).value)
  {
    match To4(ip)
    case None => Err(InvalidAddress)
    case Some(b) => Ok(BigEndianUint32(b))
  }

  /** The 4-byte and the IPv4-mapped 16-byte form of one address share a
      key, and different IPv4 addresses never do. */
  lemma IpToUint32Forms(a: byte, b: byte, c: byte, d: byte)
    ensures IpToUint32([a, b, c, d]) == IpToUint32(IPv4(a, b, c, d))
    ensures IpToUint32([a, b, c, d]).Ok?
  {
    To4OfIPv4(a, b, c, d);
  }

  lemma IpToUint32Injective(x: IP, y: IP)
    requires IpToUint32(x).Ok? && IpToUint32(y).Ok?
    ensures IpToUint32(x) == IpToUint32(y) <==> To4(x) == To4(y)
  {
    BigEndianInjective(To4(x).value, To4(y).value);
  }

  /** A record with every session field at its zero value. */
  function FreshConnection(ip: IP, pubKey: Option<VerifyKey>): Connection
  {
    Connection(pubKey, None, 0, ConnectionClose, Zeros(8), None, ip)
  }

  /** `addPrivate`: files a new closed record under the address's key.
      A non-IPv4 address or a key already present is an error and the
      table is left as it was (the caller keeps `t`). */
  function AddPrivate(t: ConnTable, ip: IP, pubKey: Option<VerifyKey>): (r: Result<ConnTable>)
    requires Linked(t)
    ensures IpToUint32(ip).Err? ==> r == Err(InvalidAddress)
    ensures IpToUint32(ip).Ok? && IpToUint32(ip).value in t.private ==> r == Err(DuplicatedEntry)
    ensures r.Ok? <==> IpToUint32(ip).Ok? && IpToUint32(ip).value !in t.private
    ensures r.Ok? ==> Linked(r.value)
    ensures r.Ok? ==>
      var k := IpToUint32(ip).value;
      && k in r.value.private
      && r.value.private[k] !in t.conns
      && r.value.private == t.private[k := r.value.private[k]]
      && r.value.conns == t.conns[r.value.private[k] := FreshConnection(ip, pubKey)]
      && r.value.public == t.public
  {
    match IpToUint32(ip)
    case Err(e) => Err(e)
    case Ok(u32) =>
      if u32 in t.private then Err(DuplicatedEntry)
      else
        var id := t.nextId;
        Ok(ConnTable(t.private[u32 := id], t.public, t.conns[id := FreshConnection(ip, pubKey)], id + 1))
  }

  /** `addPublic`: binds (or rebinds) one public address and nothing else. */
  function AddPublic(t: ConnTable, addr: UdpAddr, id: ConnId): (r: ConnTable)
    requires id in t.conns
    ensures r.public.Keys == t.public.Keys + {AddrString(addr)}
    ensures r.public[AddrString(addr)] == id
    ensures forall a | a in t.public && a != AddrString(addr) :: r.public[a] == t.public[a]
    ensures r.private == t.private && r.conns == t.conns && r.nextId == t.nextId
    ensures Linked(t) ==> Linked(r)
  {
    t.(public := t.public[AddrString(addr) := id])
  }

  /** Replaces one record (the model of writing through a pointer). */
  function Store(t: ConnTable, id: ConnId, c: Connection): (r: ConnTable)
    requires id in t.conns
    ensures r.conns.Keys == t.conns.Keys && r.conns[id] == c
    ensures forall other | other in t.conns && other != id :: r.conns[other] == t.conns[other]
    ensures r.private == t.private && r.public == t.public && r.nextId == t.nextId
    ensures Linked(t) ==> Linked(r)
  {
    t.(conns := t.conns[id := c])
  }

  /** `close`: nil is ignored. Otherwise the cipher is dropped, the clock
      reset and the state closed; the public binding named by the record's
      own `pubAddr` is deleted and `pubAddr` cleared. Session id, keys and
      the private map are left alone. */
  function Close(t: ConnTable, conn: Option<ConnId>): (r: ConnTable)
    requires conn.Some? ==> conn.value in t.conns
    ensures conn.None? ==> r == t
    ensures conn.Some? ==>
      var c := t.conns[conn.value];
      && r.conns.Keys == t.conns.Keys
      && r.conns[conn.value] == c.(encrypt := None, mtime := 0, state := ConnectionClose, pubAddr := None)
      && (forall other | other in t.conns && other != conn.value :: r.conns[other] == t.conns[other])
      && r.public == (if c.pubAddr.Some? then t.public - {AddrString(c.pubAddr.value)} else t.public)
      && r.private == t.private
      && r.conns[conn.value].session == c.session
      && r.conns[conn.value].publicKey == c.publicKey
    ensures Linked(t) ==> Linked(r)
  {
    match conn
    case None => t
    case Some(id) =>
      var c := t.conns[id];
      var closed := c.(encrypt := None, mtime := 0, state := ConnectionClose);
      if closed.pubAddr.Some? then
        var t' := t.(public := t.public - {AddrString(closed.pubAddr.value)});
        Store(t', id, closed.(pubAddr := None))
      else Store(t, id, closed)
  }

  /** Closing twice is closing once. */
  lemma CloseIdempotent(t: ConnTable, conn: Option<ConnId>)
    requires conn.Some? ==> conn.value in t.conns
    ensures Close(Close(t, conn), conn) == Close(t, conn)
  {
    if conn.Some? {
      var t1 := Close(t, conn);
      var c1 := t1.conns[conn.value];
      assert c1.pubAddr.None?;
      assert c1.(encrypt := None, mtime := 0, state := ConnectionClose) == c1;
      assert t1.conns[conn.value := c1] == t1.conns;
    }
  }

  /** `r` differs from `t` only in record fields the invariant ignores and
      in public bindings it dropped. */
  ghost predicate Shrinks(t: ConnTable, r: ConnTable)
  {
    && Linked(r)
    && r.private == t.private
    && r.conns.Keys == t.conns.Keys
    && (forall id | id in r.conns ::
          r.conns[id].priAddr == t.conns[id].priAddr && r.conns[id].publicKey == t.conns[id].publicKey)
    && (forall a | a in r.public :: a in t.public && r.public[a] == t.public[a])
  }

  /** Shrinking a valid table in that way keeps it valid. */
  lemma ShrinkKeepsValid(t: ConnTable, r: ConnTable)
    requires Valid(t) && Shrinks(t, r)
    ensures Valid(r)
  {
    forall k | k in r.private ensures IpToUint32(r.conns[r.private[k]].priAddr) == Ok(k) {
      assert r.conns[r.private[k]].priAddr == t.conns[t.private[k]].priAddr;
    }
    forall id | id in r.conns ensures FiledUnderOwnKey(r, id) {
      assert FiledUnderOwnKey(t, id);
      assert r.conns[id].priAddr == t.conns[id].priAddr;
    }
    forall a | a in r.public ensures r.conns[r.public[a]].publicKey.Some? {
      assert r.public[a] == t.public[a];
    }
  }

  /** `close` keeps the registry invariant. */
  lemma CloseKeepsValid(t: ConnTable, conn: Option<ConnId>)
    requires Valid(t)
    requires conn.Some? ==> conn.value in t.conns
    ensures Valid(Close(t, conn))
  {
    if conn.Some? {
      CloseShrinks(t, conn.value);
      ShrinkKeepsValid(t, Close(t, conn));
    }
  }

  /** `close` only drops a public binding and rewrites non-key fields. */
  lemma CloseShrinks(t: ConnTable, id: ConnId)
    requires Linked(t) && id in t.conns
    ensures Shrinks(t, Close(t, Some(id)))
  {
    var r := Close(t, Some(id));
    assert r.public.Keys <= t.public.Keys;
  }

  /** Rewriting a record keeps the invariant as long as its virtual
      address and verification key stay the same. */
  lemma StoreKeepsValid(t: ConnTable, id: ConnId, c: Connection)
    requires Valid(t) && id in t.conns
    requires c.priAddr == t.conns[id].priAddr && c.publicKey == t.conns[id].publicKey
    ensures Valid(Store(t, id, c))
  {
    StoreShrinks(t, id, c);
    ShrinkKeepsValid(t, Store(t, id, c));
  }

  /** Such a rewrite changes nothing the invariant reads. */
  lemma StoreShrinks(t: ConnTable, id: ConnId, c: Connection)
    requires Linked(t) && id in t.conns
    requires c.priAddr == t.conns[id].priAddr && c.publicKey == t.conns[id].publicKey
    ensures Shrinks(t, Store(t, id, c))
  {
  }

  /** Binding a public address keeps the invariant when the record has a
      verification key. */
  lemma AddPublicKeepsValid(t: ConnTable, addr: UdpAddr, id: ConnId)
    requires Valid(t) && id in t.conns && t.conns[id].publicKey.Some?
    ensures Valid(AddPublic(t, addr, id))
  {
    var r := AddPublic(t, addr, id);
    forall i | i in r.conns ensures FiledUnderOwnKey(r, i) {
      assert FiledUnderOwnKey(t, i);
    }
    forall a | a in r.public ensures r.conns[r.public[a]].publicKey.Some? {
      if a != AddrString(addr) {
        assert r.public[a] == t.public[a];
      }
    }
  }

  /** `getConnectionByPublic`: the record bound to the address, or "not found". */
  function GetConnectionByPublic(t: ConnTable, addr: UdpAddr): (r: Result<ConnId>)
    requires Linked(t)
    ensures r.Ok? <==> AddrString(addr) in t.public
    ensures r.Ok? ==> r.value == t.public[AddrString(addr)] && r.value in t.conns
    ensures r.Err? ==> r.error == NotFound
  {
    if AddrString(addr) in t.public then Ok(t.public[AddrString(addr)]) else Err(NotFound)
  }

  /** `getConnectionByPrivate`: a non-IPv4 address is an error; otherwise
      the record filed under its key, or "not found". */
  function GetConnectionByPrivate(t: ConnTable, ip: IP): (r: Result<ConnId>)
    requires Linked(t)
    ensures IpToUint32(ip).Err? ==> r == Err(InvalidAddress)
    ensures r.Ok? <==> IpToUint32(ip).Ok? && IpToUint32(ip).value in t.private
    ensures r.Ok? ==> r.value == t.private[IpToUint32(ip).value] && r.value in t.conns
    ensures IpToUint32(ip).Ok? && r.Err? ==> r.error == NotFound
  {
    match IpToUint32(ip)
    case Err(e) => Err(e)
    case Ok(u32) => if u32 in t.private then Ok(t.private[u32]) else Err(NotFound)
  }

  /** `r` is `t` with one new record `id`, filed under `k`. */
  ghost predicate Extends(t: ConnTable, r: ConnTable, k: Uint32, id: ConnId)
  {
    && Linked(r)
    && id !in t.conns && k !in t.private
    && r.private == t.private[k := id]
    && r.conns.Keys == t.conns.Keys + {id}
    && (forall i | i in t.conns :: r.conns[i] == t.conns[i])
    && r.public == t.public
    && IpToUint32(r.conns[id].priAddr) == Ok(k)
  }

  /** Filing a new record under its own key keeps a valid table valid. */
  lemma ExtendKeepsValid(t: ConnTable, r: ConnTable, k: Uint32, id: ConnId)
    requires Valid(t) && Extends(t, r, k, id)
    ensures Valid(r)
  {
    ExtendKeepsKeys(t, r, k, id);
    ExtendKeepsFiled(t, r, k, id);
    forall a | a in r.public ensures r.conns[r.public[a]].publicKey.Some? {
      assert r.public[a] == t.public[a] && t.public[a] != id;
    }
  }

  /** After the extension every private key still names a record with that key. */
  lemma ExtendKeepsKeys(t: ConnTable, r: ConnTable, k: Uint32, id: ConnId)
    requires Valid(t) && Extends(t, r, k, id)
    ensures forall k' | k' in r.private :: IpToUint32(r.conns[r.private[k']].priAddr) == Ok(k')
  {
    forall k' | k' in r.private ensures IpToUint32(r.conns[r.private[k']].priAddr) == Ok(k') {
      if k' != k {
        assert r.private[k'] == t.private[k'] && t.private[k'] != id;
      }
    }
  }

  /** After the extension every record is still filed under its own key. */
  lemma ExtendKeepsFiled(t: ConnTable, r: ConnTable, k: Uint32, id: ConnId)
    requires Linked(t) && Extends(t, r, k, id)
    requires forall i | i in t.conns :: FiledUnderOwnKey(t, i)
    ensures forall id' | id' in r.conns :: FiledUnderOwnKey(r, id')
  {
    forall id' | id' in r.conns ensures FiledUnderOwnKey(r, id') {
      if id' != id {
        ExtendKeepsOldFiled(t, r, k, id, id');
      }
    }
  }

  /** A record keeps its filing when a different key is added to `private`. */
  lemma ExtendKeepsOldFiled(t: ConnTable, r: ConnTable, k: Uint32, id: ConnId, old_id: ConnId)
    requires old_id in t.conns && FiledUnderOwnKey(t, old_id)
    requires k !in t.private && r.private == t.private[k := id]
    requires old_id in r.conns && r.conns[old_id] == t.conns[old_id]
    ensures FiledUnderOwnKey(r, old_id)
  {
    var k' := IpToUint32(t.conns[old_id].priAddr).value;
    assert k' != k;
  }

  /** `addPrivate` keeps the registry invariant. */
  lemma AddPrivateKeepsValid(t: ConnTable, ip: IP, pubKey: Option<VerifyKey>)
    requires Valid(t)
    requires AddPrivate(t, ip, pubKey).Ok?
    ensures Valid(AddPrivate(t, ip, pubKey).value)
  {
    var r := AddPrivate(t, ip, pubKey).value;
    var k := IpToUint32(ip).value;
    AddPrivateExtends(t, ip, pubKey);
    ExtendKeepsValid(t, r, k, r.private[k]);
  }

  /** A successful `addPrivate` files exactly one new record, under its own key. */
  lemma AddPrivateExtends(t: ConnTable, ip: IP, pubKey: Option<VerifyKey>)
    requires Linked(t)
    requires AddPrivate(t, ip, pubKey).Ok?
    ensures
      var r := AddPrivate(t, ip, pubKey).value;
      var k := IpToUint32(ip).value;
      k in r.private && Extends(t, r, k, r.private[k])
  {
    var r := AddPrivate(t, ip, pubKey).value;
    var k := IpToUint32(ip).value;
    assert r.conns[r.private[k]].priAddr == ip;
  }
}
