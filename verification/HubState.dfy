/**
 The signalling server's rooms and clients, and the database rows that mirror them.  A client object is
 named by a connection number, so that two connections with the same client id stay distinct.
 */
module HubState {
  import opened Bytes

  type Payload = seq<byte>

  datatype Room = Room(
    name: string, passwordHash: string, key: string,
    members: map<string, nat>, blacklist: set<string>, bytesRelayed: int,
    ownerID: string, ownerName: string, persistent: bool, relayDisabled: bool, locked: bool)

  datatype Envelope = Envelope(from: string, to: string, data: Payload)

  datatype Client = Client(id: string, name: string, room: string, roomKey: string, inbox: seq<Envelope>)

  datatype Row = Row(name: string, passwordHash: string, bytesRelayed: int, persistent: bool)

  datatype Ban = Ban(roomKey: string, clientID: string)

  /** Hub and database. */
  datatype State = State(
    rooms: map<string, Room>, clients: map<nat, Client>, relayOff: bool,
    rows: map<string, Row>, bans: set<Ban>)

  /** Capacity of a client's send channel. */
  const INBOX: nat := 4096

  function RoomKey(name: string, passwordHash: string): (key: string) {
    if passwordHash == "" then name else name + ":" + passwordHash
  }

  function BansOf(bans: set<Ban>, key: string): (ids: set<string>) {
    set b | b in bans && b.roomKey == key :: b.clientID
  }

  // ---- What every operation does ----

  /** disconnectExisting and the new client object of serveWs. */
  function Connected(s: State, conn: nat, id: string): (r: State) {
    s.(rooms := map k | k in s.rooms :: s.rooms[k].(members := s.rooms[k].members - {id}),
       clients := s.clients[conn := Client(id, "", "", "", [])])
  }

  function WithoutRoom(s: State, key: string): (r: State) {
    s.(rooms := s.rooms - {key})
  }

  /** getOrCreateRoom, for a key that is not live. */
  function Created(s: State, name: string, hash: string, ownerID: string, ownerName: string): (r: State) {
    var key := RoomKey(name, hash);
    var room := Room(name, hash, key, map[], {}, 0, ownerID, ownerName, ownerID == "", false, false);
    s.(rooms := s.rooms[key := room],
       rows := if ownerID == "" then s.rows[key := Row(name, hash, 0, true)] else s.rows)
  }

  function GotOrCreated(s: State, name: string, hash: string, ownerID: string, ownerName: string): (r: State) {
    if RoomKey(name, hash) in s.rooms then s else Created(s, name, hash, ownerID, ownerName)
  }

  /** removeClientFromRoom. */
  function Left(s: State, conn: nat): (r: State)
    requires conn in s.clients
    ensures conn in r.clients
  {
    var c := s.clients[conn];
    if c.roomKey == "" || c.roomKey !in s.rooms then s
    else
      var room := s.rooms[c.roomKey].(members := s.rooms[c.roomKey].members - {c.id});
      var isOwner := room.ownerID != "" && room.ownerID == c.id;
      var t := if !room.persistent && (isOwner || room.members == map[])
               then WithoutRoom(s, c.roomKey)
               else s.(rooms := s.rooms[c.roomKey := room]);
      t.(clients := s.clients[conn := c.(room := "", roomKey := "")])
  }

  datatype Lookup = Found(key: string) | WrongPassword | NoRoom

  /** findRoomByName. */
  function LookedUp(s: State, name: string, hash: string): (r: Lookup) {
    var key := RoomKey(name, hash);
    if key in s.rooms && s.rooms[key].name == name && s.rooms[key].passwordHash == hash then Found(key)
    else if exists k :: k in s.rooms && s.rooms[k].name == name then WrongPassword
    else NoRoom
  }

  datatype Request = Request(room: string, passwordHash: string, name: string)

  datatype Answer = Entered(key: string) | NameRequired | RateLimited | BadPassword | Banned | Locked

  /** The members of a room after `conn` has entered it: same-name connections of other ids are dropped. */
  function Admitted(members: map<string, nat>, clients: map<nat, Client>, conn: nat, id: string, name: string): (r: map<string, nat>) {
    var kept := map m | m in members && !(name != "" && m != id && members[m] in clients && clients[members[m]].name == name) :: members[m];
    kept[id := conn]
  }

  function Entering(s: State, conn: nat, req: Request, key: string): (r: State)
    requires conn in s.clients && key in s.rooms
  {
    var c, room := s.clients[conn], s.rooms[key];
    s.(rooms := s.rooms[key := room.(members := Admitted(room.members, s.clients, conn, c.id, c.name))],
       clients := s.clients[conn := c.(room := req.room, roomKey := room.key)])
  }

  /** handleJoin up to the choice of a room: the announced name is recorded and an old room is left. */
  function Renamed(s: State, conn: nat, req: Request): (r: State)
    requires conn in s.clients
    ensures conn in r.clients
  {
    s.(clients := s.clients[conn := s.clients[conn].(name := if req.name != "" then req.name else s.clients[conn].name)])
  }

  /** handleJoin from the search for a room on. */
  function Chosen(u: State, conn: nat, req: Request): (r: (State, Answer))
    requires conn in u.clients
  {
    match LookedUp(u, req.room, req.passwordHash)
    case WrongPassword => (u, BadPassword)
    case _ =>
      var c, key := u.clients[conn], RoomKey(req.room, req.passwordHash);
      var v := GotOrCreated(u, req.room, req.passwordHash, c.id, c.name);
      if c.id in v.rooms[key].blacklist then (v, Banned)
      else if v.rooms[key].locked then (v, Locked)
      else (Entering(v, conn, req, key), Entered(key))
  }

  function Joined(s: State, conn: nat, req: Request, allowed: bool): (r: (State, Answer))
    requires conn in s.clients
  {
    var t := Renamed(s, conn, req);
    if req.room == "" then (t, NameRequired)
    else if !allowed then (t, RateLimited)
    else Chosen(Left(t, conn), conn, req)
  }

  function Deleted(s: State, name: string): (r: State) {
    var gone := set k | k in s.rooms && s.rooms[k].name == name;
    s.(rooms := s.rooms - gone,
       rows := s.rows - gone, bans := set b | b in s.bans && b.roomKey !in gone)
  }

  function BannedFrom(s: State, key: string, id: string): (r: State)
    requires key in s.rooms
  {
    s.(rooms := s.rooms[key := s.rooms[key].(blacklist := s.rooms[key].blacklist + {id})],
       bans := s.bans + {Ban(key, id)})
  }

  function UnbannedFrom(s: State, key: string, id: string): (r: State)
    requires key in s.rooms
  {
    s.(rooms := s.rooms[key := s.rooms[key].(blacklist := s.rooms[key].blacklist - {id})],
       bans := s.bans - {Ban(key, id)})
  }

  function KickedFrom(s: State, key: string, id: string): (r: State)
    requires key in s.rooms
  {
    s.(rooms := s.rooms[key := s.rooms[key].(members := s.rooms[key].members - {id})])
  }

  /** The dashboard's lock and relay switches of one room. */
  function Configured(s: State, key: string, locked: bool, relayDisabled: bool): (r: State)
    requires key in s.rooms
  {
    s.(rooms := s.rooms[key := s.rooms[key].(locked := locked, relayDisabled := relayDisabled)])
  }

  /** syncBytesToStore. */
  function Synced(s: State): (r: State) {
    s.(rows := map k | k in s.rows ::
         if k in s.rooms then s.rows[k].(bytesRelayed := s.rooms[k].bytesRelayed) else s.rows[k])
  }

  /** The two connections that relayData found may talk, and the relay is not switched off for this data. */
  predicate MayRelay(s: State, sender: nat, target: nat, isData: bool)
    requires sender in s.clients && target in s.clients
  {
    var key := s.clients[target].roomKey;
    && s.clients[sender].roomKey != "" && s.clients[sender].roomKey == key
    && !(isData && (s.relayOff || (key in s.rooms && s.rooms[key].relayDisabled)))
  }

  /** relayData, once it has found a sender and a target connection. */
  function Relayed(s: State, from: string, to: string, sender: nat, target: nat, data: Payload, isData: bool): (r: State)
    requires sender in s.clients && target in s.clients
  {
    if !MayRelay(s, sender, target, isData) then s
    else
      var c := s.clients[target];
      var rooms := if c.roomKey in s.rooms
                   then s.rooms[c.roomKey := s.rooms[c.roomKey].(bytesRelayed := s.rooms[c.roomKey].bytesRelayed + |data|)]
                   else s.rooms;
      var inbox := if |c.inbox| < INBOX then c.inbox + [Envelope(from, to, data)] else c.inbox;
      s.(rooms := rooms, clients := s.clients[target := c.(inbox := inbox)])
  }

  /** newHub: what LoadRooms makes of the rows and bans. */
  function LoadedRooms(rows: map<string, Row>, bans: set<Ban>): (rooms: map<string, Room>) {
    map k | k in rows ::
      Room(rows[k].name, rows[k].passwordHash, k, map[], BansOf(bans, k), rows[k].bytesRelayed,
           "", "", rows[k].persistent, false, false)
  }

  function Restarted(rows: map<string, Row>, bans: set<Ban>): (s: State) {
    State(LoadedRooms(rows, bans), map[], false, rows, bans)
  }

  // ---- What every operation keeps ----

  /** Every room is filed under its own key, which its name and password determine. */
  ghost predicate KeyDerived(s: State, k: string)
    requires k in s.rooms
  {
    k == RoomKey(s.rooms[k].name, s.rooms[k].passwordHash)
  }

  ghost predicate RoomOk(s: State, k: string)
    requires k in s.rooms
  {
    s.rooms[k].key == k && k != ""
  }

  predicate IsMember(s: State, k: string, id: string) {
    k in s.rooms && id in s.rooms[k].members
  }

  /** A member of a live room knows that room by its key, and is filed under its own id. */
  ghost predicate MemberOk(s: State, k: string, id: string)
    requires IsMember(s, k, id)
  {
    var conn := s.rooms[k].members[id];
    conn in s.clients && s.clients[conn].roomKey == k && s.clients[conn].id == id
  }

  /** There is a row under `k` exactly when there is a live persistent room, and it says the same. */
  ghost predicate RowOk(s: State, k: string) {
    && (k in s.rows <==> k in s.rooms && s.rooms[k].persistent)
    && (k in s.rows ==>
          s.rows[k].name == s.rooms[k].name && s.rows[k].passwordHash == s.rooms[k].passwordHash && s.rows[k].persistent)
  }

  /** The live bans of a room are stored. */
  ghost predicate BansOk(s: State, k: string)
    requires k in s.rooms
  {
    s.rooms[k].blacklist <= BansOf(s.bans, k)
  }

  ghost predicate MembersOk(s: State) {
    && (forall conn :: conn in s.clients ==> s.clients[conn].id != "")
    && (forall k, id :: IsMember(s, k, id) ==> MemberOk(s, k, id))
  }

  ghost predicate StoreOk(s: State) {
    && (forall k :: k in s.rooms ==> RoomOk(s, k) && BansOk(s, k))
    && (forall k :: RowOk(s, k))
  }

  ghost predicate KeysOk(s: State) {
    forall k :: k in s.rooms ==> KeyDerived(s, k)
  }

  ghost predicate Inv(s: State) {
    MembersOk(s) && StoreOk(s) && KeysOk(s)
  }

  /** A database that this program wrote. */
  ghost predicate GoodRows(rows: map<string, Row>) {
    forall k :: k in rows ==> rows[k].persistent && k != "" && k == RoomKey(rows[k].name, rows[k].passwordHash)
  }
}
