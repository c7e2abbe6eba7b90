/**
 The multi-client chat server: an accepting thread and one thread a connection over two shared registries, the
 list of client sockets and the map of user names. A locked section, or one access to the name map, is one step.
 Descriptors are numbers the system hands out again once closed; connections are counted and never come back.
 */
module ChatServer {
  import opened Sequences
  import opened Lines

  // ---------- Messages ----------

  datatype Command = Login(name: string) | Direct(data: string) | Broadcast(text: string) | Logout | OnlineUsers | Invalid

  /** The text up to the first ':' names the event, the rest is its data. */
  function Parse(text: string): Command {
    var pos := LineLength(text, ':');
    var event := text[..pos];
    var data := if pos < |text| then text[pos + 1..] else "";
    if event == "login" then Login(data)
    else if event == "direct" then Direct(data)
    else if event == "broadcast" then Broadcast(data)
    else if event == "logout" then Logout
    else if event == "online-users" then OnlineUsers
    else Invalid
  }

  function EventName(c: Command): string {
    match c
    case Login(_) => "login"
    case Direct(_) => "direct"
    case Broadcast(_) => "broadcast"
    case Logout => "logout"
    case OnlineUsers => "online-users"
    case Invalid => ""
  }

  function Data(c: Command): string {
    match c
    case Login(name) => name
    case Direct(data) => data
    case Broadcast(text) => text
    case _ => ""
  }

  lemma CutAtColon(event: string, data: string)
    requires ':' !in event
    ensures var text := event + [':'] + data;
            && |event| < |text| && LineLength(text, ':') == |event|
            && text[..|event|] == event && text[|event| + 1..] == data
  {
    LineLengthIs(event + [':'] + data, ':', |event|);
  }

  /** A client that writes its event, a ':' and its data is understood, whatever the data holds. */
  lemma WrittenCommandIsRead(c: Command)
    ensures Parse(EventName(c) + [':'] + Data(c)) == c
  {
    hide LineLength;
    CutAtColon(EventName(c), Data(c));
  }

  /** An event alone is read as with a ':' and nothing behind it. */
  lemma BareEventIsRead(event: string)
    requires ':' !in event
    ensures Parse(event) == Parse(event + [':'])
  {
    hide LineLength;
    CutAtColon(event, []);
    assert event + [':'] + [] == event + [':'];
    WholeLine(event);
  }

  lemma WholeLine(event: string)
    requires ':' !in event
    ensures LineLength(event, ':') == |event| && event[..|event|] == event
  {
    LineLengthIs(event, ':', |event|);
  }

  /** The bare texts, and every event by its name: the five are understood, any other is invalid, whatever its data. */
  lemma EventsAreRead(event: string, data: string)
    requires ':' !in event
    ensures Parse(event + [':'] + data) ==
            match event
            case "login" => Login(data)
            case "direct" => Direct(data)
            case "broadcast" => Broadcast(data)
            case "logout" => Logout
            case "online-users" => OnlineUsers
            case _ => Invalid
    ensures Parse("logout") == Logout && Parse("online-users") == OnlineUsers
  {
    hide LineLength;
    CutAtColon(event, data);
    WholeLine("logout");
    WholeLine("online-users");
  }

  datatype Message = Text(text: string) | Listing(names: set<string>)

  datatype Send = Send(fd: int, message: Message)

  // ---------- What each handler sends, and does to the registries ----------

  function Others(clients: seq<int>, sender: int, text: string): seq<Send> {
    if clients == [] then []
    else (if clients[0] == sender then [] else [Send(clients[0], Text("Broadcast: " + text))]) + Others(clients[1..], sender, text)
  }

  function BroadcastSends(clients: seq<int>, sender: int, text: string): seq<Send> {
    Others(clients, sender, text) + [Send(sender, Text("Broadcast sent successfully."))]
  }

  function Without(clients: seq<int>, fd: int): seq<int> {
    if clients == [] then []
    else (if clients[0] == fd then [] else [clients[0]]) + Without(clients[1..], fd)
  }

  function UsersWithout(users: map<string, int>, fd: int): map<string, int> {
    map name | name in users && users[name] != fd :: users[name]
  }

  /** Whom a direct message is for, if the name is logged in, and its text. */
  datatype Address = To(fd: int, text: string) | Unknown | Malformed

  function Addressed(users: map<string, int>, data: string): Address {
    var pos := LineLength(data, ':');
    if pos == |data| then Malformed
    else if data[..pos] in users then To(users[data[..pos]], "Direct message from sender: " + data[pos + 1..])
    else Unknown
  }

  const LOGGED_IN := Text("Login successful.")
  const LOGGED_OUT := Text("Logout successful.")
  const DIRECT_SENT := Text("Direct message sent successfully.")
  const NO_RECEIVER := Text("Error: Receiver not found or offline.")
  const BAD_FORMAT := Text("Error: Invalid message format.")
  const BAD_EVENT := Text("Error: Invalid event type.")

  /** The two registries, and what the handlers do to them under the mutex. */
  class Server {
    var clients: seq<int>
    var users: map<string, int>

    constructor ()
      ensures clients == [] && users == map[]
    {
      clients, users := [], map[];
    }

    method BroadcastMessage(text: string, sender: int) returns (sends: seq<Send>)
      ensures sends == BroadcastSends(clients, sender, text)
    {
      sends := [];
      for i := 0 to |clients|
        invariant sends + Others(clients[i..], sender, text) == Others(clients, sender, text)
      {
        var message := Send(clients[i], Text("Broadcast: " + text));
        assert clients[i..][1..] == clients[i + 1..];
        ghost var later := Others(clients[i + 1..], sender, text);
        Associative(sends, [message], later);
        assert Others(clients[i..], sender, text) == (if clients[i] == sender then [] else [message]) + later;
        if clients[i] != sender {
          sends := sends + [message];
        }
      }
      sends := sends + [Send(sender, Text("Broadcast sent successfully."))];
    }

    method HandleLoginClient(username: string, sender: int) returns (sends: seq<Send>)
      modifies this`users
      ensures users == old(users)[username := sender]
      ensures sends == [Send(sender, LOGGED_IN)]
    {
      users := users[username := sender];
      return [Send(sender, LOGGED_IN)];
    }

    /** The locked section of a logout: the map is swept while it shrinks, then the list is compacted. */
    method Unregister(sender: int)
      modifies this
      ensures users == UsersWithout(old(users), sender)
      ensures clients == Without(old(clients), sender)
    {
      var left := users.Keys;
      while left != {}
        invariant left <= users.Keys
        invariant forall name :: name in users <==> name in old(users) && (name in left || old(users)[name] != sender)
        invariant forall name :: name in users ==> users[name] == old(users)[name]
        invariant clients == old(clients)
        decreases |left|
      {
        var name :| name in left;
        left := left - {name};
        if users[name] == sender {
          users := users - {name};
        }
      }
      var kept := [];
      for i := 0 to |clients|
        invariant clients == old(clients) && users == UsersWithout(old(users), sender)
        invariant kept + Without(clients[i..], sender) == Without(clients, sender)
      {
        assert clients[i..][1..] == clients[i + 1..];
        ghost var later := Without(clients[i + 1..], sender);
        Associative(kept, [clients[i]], later);
        assert Without(clients[i..], sender) == (if clients[i] == sender then [] else [clients[i]]) + later;
        if clients[i] != sender {
          kept := kept + [clients[i]];
        }
      }
      clients := kept;
    }

    method HandleOnlineUsers(sender: int) returns (sends: seq<Send>)
      ensures sends == [Send(sender, Listing(users.Keys))]
    {
      var names, left := {}, users.Keys;
      while left != {}
        invariant names + left == users.Keys
        decreases |left|
      {
        var name :| name in left;
        names, left := names + {name}, left - {name};
      }
      return [Send(sender, Listing(names))];
    }

    /** Up to the look-up; the message itself is sent afterwards, without the mutex. */
    method FindReceiver(data: string) returns (address: Address)
      ensures address == Addressed(users, data)
    {
      var pos := LineLength(data, ':');
      if pos == |data| { return Malformed; }
      var receiver, message := data[..pos], data[pos + 1..];
      if receiver !in users { return Unknown; }
      return To(users[receiver], "Direct message from sender: " + message);
    }
  }

  // ---------- The machine ----------

  /**
   Where a connection's thread stands: before its next receive, holding a descriptor it looked up for a direct
   message (`target` was the connection behind it then), about to unregister, or unregistered but still open.
   */
  datatype Place = Waiting | Sending(dest: int, text: string, target: nat) | Leaving | Closing

  datatype Handler = Handler(fd: int, place: Place)

  datatype Acceptor = Accepting | Pushing(fd: int, conn: nat) | Spawning(fd: int, conn: nat)

  datatype Delivery = Delivery(conn: nat, message: Message)

  /** Beside the registries: the sockets the system holds open, what arrived where, and each name's last login. */
  datatype State = State(clients: seq<int>, users: map<string, int>,
                         acceptor: Acceptor, handlers: map<nat, Handler>,
                         open: map<int, nat>, next: nat, log: seq<Delivery>, logins: map<string, nat>)

  function Start(): State { State([], map[], Accepting, map[], map[], 0, [], map[]) }

  datatype Event =
    | Accepts(fd: int) | Pushes | Spawns
    | Receives(conn: nat, text: string) | Fails(conn: nat) | Sends(conn: nat) | Unregisters(conn: nat) | Closes(conn: nat)

  predicate At(s: State, c: nat, p: Place) { c in s.handlers && s.handlers[c].place == p }

  predicate Enabled(s: State, e: Event) {
    match e
    case Accepts(fd) => s.acceptor == Accepting && fd !in s.open
    case Pushes => s.acceptor.Pushing?
    case Spawns => s.acceptor.Spawning?
    case Receives(c, _) => At(s, c, Waiting)
    case Fails(c) => At(s, c, Waiting)
    case Sends(c) => c in s.handlers && s.handlers[c].place.Sending?
    case Unregisters(c) => At(s, c, Leaving)
    case Closes(c) => At(s, c, Closing)
  }

  /** What is sent on a closed descriptor is lost. */
  function Delivered(open: map<int, nat>, sends: seq<Send>): seq<Delivery> {
    if sends == [] then []
    else (if sends[0].fd in open then [Delivery(open[sends[0].fd], sends[0].message)] else []) + Delivered(open, sends[1..])
  }

  lemma OneDelivered(open: map<int, nat>, send: Send)
    ensures Delivered(open, [send]) == if send.fd in open then [Delivery(open[send.fd], send.message)] else []
  {
    assert [send][1..] == [];
  }

  function Sent(s: State, sends: seq<Send>): State { s.(log := s.log + Delivered(s.open, sends)) }

  function Moved(s: State, c: nat, p: Place): State
    requires c in s.handlers
  {
    s.(handlers := s.handlers[c := s.handlers[c].(place := p)])
  }

  function Dispatch(s: State, c: nat, command: Command): State
    requires c in s.handlers
  {
    var fd := s.handlers[c].fd;
    match command
    case Login(name) => Sent(s.(users := s.users[name := fd], logins := s.logins[name := c]), [Send(fd, LOGGED_IN)])
    case Direct(data) =>
      (match Addressed(s.users, data)
       case To(dest, text) => Moved(s, c, Sending(dest, text, if dest in s.open then s.open[dest] else s.next))
       case Unknown => Sent(s, [Send(fd, NO_RECEIVER)])
       case Malformed => Sent(s, [Send(fd, BAD_FORMAT)]))
    case Broadcast(text) => Sent(s, BroadcastSends(s.clients, fd, text))
    case Logout => Moved(s, c, Leaving)
    case OnlineUsers => Sent(s, [Send(fd, Listing(s.users.Keys))])
    case Invalid => Sent(s, [Send(fd, BAD_EVENT)])
  }

  function Do(s: State, e: Event): State
    requires Enabled(s, e)
  {
    match e
    case Accepts(fd) => s.(open := s.open[fd := s.next], acceptor := Pushing(fd, s.next), next := s.next + 1)
    case Pushes => s.(clients := s.clients + [s.acceptor.fd], acceptor := Spawning(s.acceptor.fd, s.acceptor.conn))
    case Spawns => s.(handlers := s.handlers[s.acceptor.conn := Handler(s.acceptor.fd, Waiting)], acceptor := Accepting)
    case Receives(c, text) => Dispatch(s, c, Parse(text))
    case Fails(c) => Moved(s, c, Leaving)
    case Sends(c) =>
      var p := s.handlers[c].place;
      Moved(Sent(s, [Send(p.dest, Text(p.text)), Send(s.handlers[c].fd, DIRECT_SENT)]), c, Waiting)
    case Unregisters(c) =>
      var fd := s.handlers[c].fd;
      Moved(s.(users := UsersWithout(s.users, fd), clients := Without(s.clients, fd)), c, Closing)
    case Closes(c) =>
      var fd := s.handlers[c].fd;
      Sent(s, [Send(fd, LOGGED_OUT)]).(open := s.open - {fd}, handlers := s.handlers - {c})
  }

  ghost predicate Runs(s: State, schedule: seq<Event>)
    decreases |schedule|
  {
    schedule == [] || (Enabled(s, schedule[0]) && Runs(Do(s, schedule[0]), schedule[1..]))
  }

  ghost function After(s: State, schedule: seq<Event>): State
    requires Runs(s, schedule)
    decreases |schedule|
  {
    if schedule == [] then s else After(Do(s, schedule[0]), schedule[1..])
  }

  // ---------- The invariant ----------

  /** The accepted connection its thread has not been started for. */
  predicate Pending(s: State, c: nat) { s.acceptor != Accepting && s.acceptor.conn == c }

  /** On the list of clients: pushed, and not yet past its locked section. */
  predicate Registered(s: State, c: nat) {
    (s.acceptor.Spawning? && s.acceptor.conn == c) || (c in s.handlers && s.handlers[c].place != Closing)
  }

  /** An open socket's connection is served, or about to be, under that descriptor. */
  predicate Owned(s: State, fd: int)
    requires fd in s.open
  {
    var c := s.open[fd];
    c < s.next && if Pending(s, c) then s.acceptor.fd == fd else c in s.handlers && s.handlers[c].fd == fd
  }

  predicate Owner(s: State, c: nat)
    requires c in s.handlers
  {
    c < s.next && !Pending(s, c) && s.handlers[c].fd in s.open && s.open[s.handlers[c].fd] == c
  }

  predicate Newcomer(s: State)
    requires s.acceptor != Accepting
  {
    s.acceptor.conn + 1 == s.next && s.acceptor.fd in s.open && s.open[s.acceptor.fd] == s.acceptor.conn
  }

  /** Each open socket belongs to one connection, which has one handler, or is about to. */
  predicate Sockets(s: State) {
    && (forall c :: c in s.handlers ==> Owner(s, c))
    && (forall fd :: fd in s.open ==> Owned(s, fd))
    && (s.acceptor != Accepting ==> Newcomer(s))
  }

  predicate ByAge(clients: seq<int>, open: map<int, nat>) {
    && (forall i :: 0 <= i < |clients| ==> clients[i] in open)
    && (forall i, j :: 0 <= i < j < |clients| ==> open[clients[i]] < open[clients[j]])
  }

  /** The list holds the registered connections' sockets in the order they were accepted. */
  predicate Roster(s: State) {
    && ByAge(s.clients, s.open)
    && (forall fd :: fd in s.open ==> (fd in s.clients <==> Registered(s, s.open[fd])))
  }

  /** A name is online exactly while the last connection to log in with it is registered, and stands for its socket. */
  predicate Names(s: State) {
    && (forall name :: name in s.users ==> name in s.logins)
    && (forall name :: name in s.logins ==> NameKept(s, name))
  }

  predicate NameKept(s: State, name: string)
    requires name in s.logins
  {
    var c := s.logins[name];
    && c < s.next && !Pending(s, c)
    && (name in s.users <==> Registered(s, c))
    && (name in s.users ==> s.users[name] == s.handlers[c].fd)
  }

  /** While the connection a direct message was looked up for lives, the descriptor is still its own. */
  predicate Targets(s: State) {
    forall c :: c in s.handlers && s.handlers[c].place.Sending? ==> TargetKept(s, s.handlers[c].place.dest, s.handlers[c].place.target)
  }

  predicate TargetKept(s: State, dest: int, target: nat) {
    target < s.next && !Pending(s, target) && (target in s.handlers ==> s.handlers[target].fd == dest)
  }

  predicate Inv(s: State) { Sockets(s) && Roster(s) && Names(s) && Targets(s) }

  lemma StartKeepsInv()
    ensures Inv(Start())
  {
  }

  /** What a received command can change beside the log. */
  lemma DispatchFrame(s: State, c: nat, command: Command)
    requires At(s, c, Waiting)
    ensures var s' := Dispatch(s, c, command);
            && s'.clients == s.clients && s'.acceptor == s.acceptor && s'.open == s.open && s'.next == s.next
            && c in s'.handlers && s'.handlers[c].fd == s.handlers[c].fd && s'.handlers[c].place != Closing
            && s'.handlers == s.handlers[c := s'.handlers[c]]
            && (command.Login? ==> s'.users == s.users[command.name := s.handlers[c].fd] && s'.logins == s.logins[command.name := c])
            && (!command.Login? ==> s'.users == s.users && s'.logins == s.logins)
  {
    hide Addressed, BroadcastSends, Delivered;
    assert s.handlers == s.handlers[c := s.handlers[c]];
  }

  lemma MovedKeepsSockets(s: State, s': State, c: nat)
    requires Sockets(s) && c in s.handlers && c in s'.handlers
    requires s'.handlers == s.handlers[c := s'.handlers[c]] && s'.handlers[c].fd == s.handlers[c].fd
    requires s'.acceptor == s.acceptor && s'.open == s.open && s'.next == s.next
    ensures Sockets(s')
  {
    assert forall d :: d in s'.handlers ==> Owner(s, d);
    assert forall fd :: fd in s'.open ==> Owned(s, fd);
  }

  lemma StepKeepsSockets(s: State, e: Event)
    requires Enabled(s, e) && Sockets(s)
    ensures Sockets(Do(s, e))
  {
    hide Dispatch, Parse, Delivered, Without, UsersWithout, Sockets;
    match e
    case Accepts(_) => AcceptorKeepsSockets(s, e);
    case Pushes => AcceptorKeepsSockets(s, e);
    case Spawns => AcceptorKeepsSockets(s, e);
    case Closes(c) => CloseKeepsSockets(s, c);
    case Receives(c, text) => DispatchFrame(s, c, Parse(text)); MovedKeepsSockets(s, Do(s, e), c);
    case Fails(c) => MovedKeepsSockets(s, Do(s, e), c);
    case Sends(c) => MovedKeepsSockets(s, Do(s, e), c);
    case Unregisters(c) => MovedKeepsSockets(s, Do(s, e), c);
  }

  lemma AcceptorKeepsSockets(s: State, e: Event)
    requires Enabled(s, e) && Sockets(s) && (e.Accepts? || e.Pushes? || e.Spawns?)
    ensures Sockets(Do(s, e))
  {
    var s' := Do(s, e);
    forall c | c in s'.handlers
      ensures Owner(s', c)
    {
      assert c in s.handlers ==> Owner(s, c);
    }
    forall fd | fd in s'.open
      ensures Owned(s', fd)
    {
      assert fd in s.open ==> Owned(s, fd);
    }
  }

  lemma CloseKeepsSockets(s: State, c: nat)
    requires At(s, c, Closing) && Sockets(s)
    ensures Sockets(Do(s, Closes(c)))
  {
    hide Delivered;
    var s' := Do(s, Closes(c));
    assert Owner(s, c);
    forall d | d in s'.handlers
      ensures Owner(s', d)
    {
      assert Owner(s, d);
    }
    forall fd | fd in s'.open
      ensures Owned(s', fd)
    {
      assert Owned(s, fd);
    }
  }

  // ---------- The list of clients ----------

  lemma {:induction false} WithoutKeepsAge(clients: seq<int>, fd: int, open: map<int, nat>)
    requires ByAge(clients, open)
    ensures ByAge(Without(clients, fd), open)
    ensures forall x :: x in Without(clients, fd) <==> x in clients && x != fd
  {
    if clients != [] {
      var rest := clients[1..];
      WithoutKeepsAge(rest, fd, open);
      forall x | x in Without(rest, fd)
        ensures open[clients[0]] < open[x]
      {
        var i :| 0 <= i < |rest| && rest[i] == x;
        assert clients[i + 1] == x;
      }
    }
  }

  lemma StepKeepsRoster(s: State, e: Event)
    requires Enabled(s, e) && Sockets(s) && Roster(s)
    ensures Roster(Do(s, e))
  {
    hide Dispatch, Parse, Delivered, Without, UsersWithout, Roster, Sockets;
    match e
    case Accepts(fd) => AcceptKeepsRoster(s, fd);
    case Pushes => PushKeepsRoster(s);
    case Spawns => SpawnKeepsRoster(s);
    case Unregisters(c) => UnregisterKeepsRoster(s, c);
    case Closes(c) => CloseKeepsRoster(s, c);
    case Receives(c, text) => DispatchFrame(s, c, Parse(text)); MovedKeepsRoster(s, Do(s, e), c);
    case Fails(c) => MovedKeepsRoster(s, Do(s, e), c);
    case Sends(c) => MovedKeepsRoster(s, Do(s, e), c);
  }

  lemma MovedKeepsRoster(s: State, s': State, c: nat)
    requires Roster(s) && c in s.handlers && s.handlers[c].place != Closing && c in s'.handlers && s'.handlers[c].place != Closing
    requires s'.handlers == s.handlers[c := s'.handlers[c]]
    requires s'.clients == s.clients && s'.acceptor == s.acceptor && s'.open == s.open
    ensures Roster(s')
  {
    assert forall d :: Registered(s', d) <==> Registered(s, d);
  }

  lemma SpawnKeepsRoster(s: State)
    requires s.acceptor.Spawning? && Sockets(s) && Roster(s)
    ensures Roster(Do(s, Spawns))
  {
    assert forall d :: Registered(Do(s, Spawns), d) <==> Registered(s, d);
  }

  lemma AcceptKeepsRoster(s: State, fd: int)
    requires Enabled(s, Accepts(fd)) && Sockets(s) && Roster(s)
    ensures Roster(Do(s, Accepts(fd)))
  {
    var s' := Do(s, Accepts(fd));
    AcceptorIsNewest(s);
    forall x | x in s'.open
      ensures x in s'.clients <==> Registered(s', s'.open[x])
    {
      assert x in s.open ==> Owned(s, x);
    }
  }

  lemma ByAgeAgrees(clients: seq<int>, open: map<int, nat>, open': map<int, nat>)
    requires ByAge(clients, open)
    requires forall i :: 0 <= i < |clients| ==> clients[i] in open' && open'[clients[i]] == open[clients[i]]
    ensures ByAge(clients, open')
  {
  }

  lemma CloseKeepsRoster(s: State, c: nat)
    requires At(s, c, Closing) && Sockets(s) && Roster(s)
    ensures Roster(Do(s, Closes(c)))
  {
    hide Delivered;
    var s' := Do(s, Closes(c));
    assert Owner(s, c);
    assert s.handlers[c].fd !in s.clients;
    ByAgeAgrees(s.clients, s.open, s'.open);
    forall x | x in s'.open
      ensures x in s'.clients <==> Registered(s', s'.open[x])
    {
      assert Owned(s, x);
    }
  }

  lemma PushKeepsRoster(s: State)
    requires s.acceptor.Pushing? && Sockets(s) && Roster(s)
    ensures Roster(Do(s, Pushes))
  {
    var s' := Do(s, Pushes);
    var fd, c := s.acceptor.fd, s.acceptor.conn;
    forall x | x in s.open
      ensures x in s'.clients <==> Registered(s', s.open[x])
      ensures x in s.clients ==> s.open[x] < c
    {
      assert Owned(s, x);
    }
    forall i, j | 0 <= i < j < |s'.clients|
      ensures s'.clients[i] in s.open && s'.clients[j] in s.open && s.open[s'.clients[i]] < s.open[s'.clients[j]]
    {
      assert s'.clients[i] == s.clients[i] && s.clients[i] in s.clients;
      assert s'.clients[j] == if j < |s.clients| then s.clients[j] else fd;
    }
  }

  lemma UnregisterKeepsRoster(s: State, c: nat)
    requires At(s, c, Leaving) && Sockets(s) && Roster(s)
    ensures Roster(Do(s, Unregisters(c)))
  {
    hide Without, UsersWithout, ByAge;
    var s' := Do(s, Unregisters(c));
    WithoutKeepsAge(s.clients, s.handlers[c].fd, s.open);
    forall fd | fd in s.open
      ensures fd in s'.clients <==> Registered(s', s.open[fd])
    {
      assert Owned(s, fd) && Owner(s, c);
    }
  }

  // ---------- The map of names ----------

  lemma StepKeepsNames(s: State, e: Event)
    requires Enabled(s, e) && Sockets(s) && Names(s)
    ensures Names(Do(s, e))
  {
    hide Dispatch, Parse, Delivered, Without, Sockets, Names;
    match e
    case Receives(c, text) => DispatchFrame(s, c, Parse(text)); DispatchKeepsNames(s, c, Parse(text));
    case Unregisters(c) => UnregisterKeepsNames(s, c);
    case Accepts(_) => QuietKeepsNames(s, e);
    case Pushes => QuietKeepsNames(s, e);
    case Spawns => QuietKeepsNames(s, e);
    case Closes(c) => QuietKeepsNames(s, e);
    case Fails(c) => QuietKeepsNames(s, e);
    case Sends(c) => QuietKeepsNames(s, e);
  }

  lemma QuietKeepsNames(s: State, e: Event)
    requires Enabled(s, e) && Sockets(s) && Names(s) && !e.Receives? && !e.Unregisters?
    ensures Names(Do(s, e))
  {
    hide Delivered, Sockets;
    var s' := Do(s, e);
    AcceptorIsNewest(s);
    forall name | name in s'.logins
      ensures NameKept(s', name)
    {
      assert NameKept(s, name);
    }
  }

  lemma AcceptorIsNewest(s: State)
    requires Sockets(s)
    ensures s.acceptor != Accepting ==> s.acceptor.conn + 1 == s.next && s.acceptor.conn !in s.handlers
    ensures s.next !in s.handlers
  {
    assert forall c :: c in s.handlers ==> Owner(s, c);
  }

  lemma DispatchKeepsNames(s: State, c: nat, command: Command)
    requires At(s, c, Waiting) && Sockets(s) && Names(s)
    ensures Names(Dispatch(s, c, command))
  {
    var s' := Dispatch(s, c, command);
    DispatchFrame(s, c, command);
    hide Dispatch;
    assert Owner(s, c);
    forall name | name in s'.logins
      ensures NameKept(s', name)
    {
      assert name in s.logins ==> NameKept(s, name);
    }
  }

  lemma UnregisterKeepsNames(s: State, c: nat)
    requires At(s, c, Leaving) && Sockets(s) && Names(s)
    ensures Names(Do(s, Unregisters(c)))
  {
    hide Without;
    var s' := Do(s, Unregisters(c));
    forall name | name in s'.logins
      ensures NameKept(s', name)
    {
      var d := s.logins[name];
      assert NameKept(s, name) && Owner(s, c);
      if d in s.handlers { assert Owner(s, d); }
    }
  }

  // ---------- Direct messages under way ----------

  lemma StepKeepsTargets(s: State, e: Event)
    requires Enabled(s, e) && Sockets(s) && Names(s) && Targets(s)
    ensures Targets(Do(s, e))
  {
    hide Dispatch, Parse, Delivered, Without, UsersWithout, Sockets, Names;
    var s' := Do(s, e);
    AcceptorIsNewest(s);
    match e {
      case Receives(c, text) => DispatchKeepsTargets(s, c, Parse(text));
      case _ =>
        forall c | c in s'.handlers && s'.handlers[c].place.Sending?
          ensures TargetKept(s', s'.handlers[c].place.dest, s'.handlers[c].place.target)
        {
          assert TargetKept(s, s.handlers[c].place.dest, s.handlers[c].place.target);
        }
    }
  }

  lemma DispatchKeepsTargets(s: State, c: nat, command: Command)
    requires At(s, c, Waiting) && Sockets(s) && Names(s) && Targets(s)
    ensures Targets(Dispatch(s, c, command))
  {
    var s' := Dispatch(s, c, command);
    if s'.handlers[c].place.Sending? {
      DirectFindsTheLastLogin(s, c, command.data);
    }
    DispatchFrame(s, c, command);
    hide Dispatch, Sockets, Names;
    forall d | d in s'.handlers && s'.handlers[d].place.Sending?
      ensures TargetKept(s', s'.handlers[d].place.dest, s'.handlers[d].place.target)
    {
      if d != c { assert TargetKept(s, s.handlers[d].place.dest, s.handlers[d].place.target); }
    }
  }

  /** A direct message is for a name's last login, and is refused exactly when that connection is not registered. */
  lemma DirectFindsTheLastLogin(s: State, c: nat, data: string)
    requires At(s, c, Waiting) && Sockets(s) && Names(s) && ':' in data
    ensures var name := data[..LineLength(data, ':')];
            var online := name in s.logins && Registered(s, s.logins[name]);
            var s' := Dispatch(s, c, Direct(data));
            && (online <==> s'.handlers[c].place.Sending?)
            && (online ==> && s'.handlers[c].place.target == s.logins[name]
                           && s.logins[name] in s.handlers && s'.handlers[c].place.dest == s.handlers[s.logins[name]].fd
                           && s'.handlers[c].place.text == "Direct message from sender: " + data[|name| + 1..]
                           && s'.log == s.log)
            && (!online ==> s'.log == s.log + [Delivery(c, Text("Error: Receiver not found or offline."))])
  {
    var name := data[..LineLength(data, ':')];
    assert Owner(s, c);
    OneDelivered(s.open, Send(s.handlers[c].fd, NO_RECEIVER));
    if name in s.logins {
      assert NameKept(s, name);
      if Registered(s, s.logins[name]) { assert Owner(s, s.logins[name]); }
    }
  }

  // ---------- Every run ----------

  lemma StepKeepsInv(s: State, e: Event)
    requires Enabled(s, e) && Inv(s)
    ensures Inv(Do(s, e))
  {
    StepKeepsSockets(s, e);
    StepKeepsRoster(s, e);
    StepKeepsNames(s, e);
    StepKeepsTargets(s, e);
  }

  lemma {:induction false} RunsKeepInv(s: State, schedule: seq<Event>)
    requires Inv(s) && Runs(s, schedule)
    ensures Inv(After(s, schedule))
    decreases |schedule|
  {
    hide Inv, Enabled, Do;
    if schedule != [] {
      StepKeepsInv(s, schedule[0]);
      RunsKeepInv(Do(s, schedule[0]), schedule[1..]);
    }
  }

  // ---------- What holds in every reachable state ----------

  /** No socket is listed twice; each is open, and its connection has the one handler that will unregister it. */
  lemma ListedOnceAndServed(s: State)
    requires Inv(s)
    ensures forall i, j :: 0 <= i < j < |s.clients| ==> s.clients[i] != s.clients[j]
    ensures forall fd :: fd in s.clients ==>
              fd in s.open && (Pending(s, s.open[fd]) || HandledBy(s, fd, s.open[fd]))
    ensures forall fd, c, d :: HandledBy(s, fd, c) && HandledBy(s, fd, d) ==> c == d
  {
    forall fd | fd in s.clients
      ensures fd in s.open && (Pending(s, s.open[fd]) || HandledBy(s, fd, s.open[fd]))
    {
      assert Owned(s, fd);
    }
    forall fd, c, d | HandledBy(s, fd, c) && HandledBy(s, fd, d)
      ensures c == d
    {
      assert Owner(s, c) && Owner(s, d);
    }
  }

  predicate HandledBy(s: State, fd: int, c: nat) { c in s.handlers && s.handlers[c].fd == fd }

  /** The name map lists a name exactly while its last login is registered, and under that connection's listed socket. */
  lemma OnlineIffLastLoginIsRegistered(s: State, name: string)
    requires Inv(s)
    ensures name in s.users <==> name in s.logins && Registered(s, s.logins[name])
    ensures name in s.users ==> s.users[name] in s.clients && s.open[s.users[name]] == s.logins[name]
  {
    if name in s.logins {
      assert NameKept(s, name);
      if name in s.users { assert Owner(s, s.logins[name]); }
    }
  }

  /** So it is whatever happens to a server from its start on. */
  lemma EveryRunIsSafe(schedule: seq<Event>)
    requires Runs(Start(), schedule)
    ensures var s := After(Start(), schedule);
            && Inv(s)
            && (forall i, j :: 0 <= i < j < |s.clients| ==> s.clients[i] != s.clients[j])
            && (forall fd :: fd in s.clients ==>
                  fd in s.open && (Pending(s, s.open[fd]) || HandledBy(s, fd, s.open[fd])))
            && (forall name :: name in s.users ==> name in s.logins && s.users[name] in s.clients)
  {
    StartKeepsInv();
    RunsKeepInv(Start(), schedule);
    var s := After(Start(), schedule);
    hide Inv;
    ListedOnceAndServed(s);
    forall name | name in s.users
      ensures name in s.logins && s.users[name] in s.clients
    {
      OnlineIffLastLoginIsRegistered(s, name);
    }
  }

  // ---------- What a client is told ----------

  /** The names whose last login is registered. */
  function Online(s: State): set<string> { set name | name in s.logins && Registered(s, s.logins[name]) }

  /** The replies, word for word, and what else a command does. Broadcasts and addressed messages are treated below. */
  lemma CommandsAreAnswered(s: State, c: nat, command: Command)
    requires Inv(s) && At(s, c, Waiting)
    ensures var s' := Dispatch(s, c, command);
            match command
            case Login(name) =>
              && s'.log == s.log + [Delivery(c, Text("Login successful."))]
              && name in s'.users && s'.users[name] == s.handlers[c].fd && s'.logins == s.logins[name := c]
              && (forall other :: other != name ==> (other in s'.users <==> other in s.users))
              && (forall other :: other != name && other in s.users ==> s'.users[other] == s.users[other])
            case Direct(data) =>
              ':' !in data ==> s' == s.(log := s.log + [Delivery(c, Text("Error: Invalid message format."))])
            case Logout => s' == s.(handlers := s.handlers[c := Handler(s.handlers[c].fd, Leaving)])
            case OnlineUsers => s' == s.(log := s.log + [Delivery(c, Listing(Online(s)))])
            case Invalid => s' == s.(log := s.log + [Delivery(c, Text("Error: Invalid event type."))])
            case Broadcast(_) => true
  {
    var fd := s.handlers[c].fd;
    assert Owner(s, c);
    OneDelivered(s.open, Send(fd, LOGGED_IN));
    OneDelivered(s.open, Send(fd, BAD_FORMAT));
    OneDelivered(s.open, Send(fd, BAD_EVENT));
    OneDelivered(s.open, Send(fd, Listing(s.users.Keys)));
    forall name
      ensures name in s.users.Keys <==> name in Online(s)
    {
      OnlineIffLastLoginIsRegistered(s, name);
    }
    assert s.users.Keys == Online(s);
    if command.Direct? && ':' !in command.data { WholeLine(command.data); }
  }

  /** A connection is told of its logout, and then it and its descriptor are gone. */
  lemma LogoutIsAnnounced(s: State, c: nat)
    requires Inv(s) && At(s, c, Closing)
    ensures var s' := Do(s, Closes(c));
            && s'.log == s.log + [Delivery(c, Text("Logout successful."))]
            && c !in s'.handlers && s.handlers[c].fd !in s'.open
            && (forall fd :: fd in s.open && fd != s.handlers[c].fd ==> fd in s'.open && s'.open[fd] == s.open[fd])
  {
    assert Owner(s, c);
    OneDelivered(s.open, Send(s.handlers[c].fd, LOGGED_OUT));
  }

  // ---------- Broadcasts ----------

  lemma {:induction false} OthersReached(clients: seq<int>, sender: int, open: map<int, nat>, text: string, d: nat)
    requires ByAge(clients, open)
    ensures Count(Delivered(open, Others(clients, sender, text)), Delivery(d, Text("Broadcast: " + text)))
            == if exists fd :: fd in clients && fd != sender && open[fd] == d then 1 else 0
    ensures forall x :: x in Delivered(open, Others(clients, sender, text)) ==> x.message == Text("Broadcast: " + text)
  {
    if clients != [] {
      var fd, rest := clients[0], clients[1..];
      OthersReached(rest, sender, open, text, d);
      assert forall x :: x in rest ==> open[fd] < open[x] by { FirstIsOldest(clients, open); }
      hide ByAge;
      var message := Text("Broadcast: " + text);
      assert clients == [fd] + rest;
      if fd == sender {
        assert Others(clients, sender, text) == Others(rest, sender, text);
      } else {
        DeliveredCons(open, Send(fd, message), Others(rest, sender, text));
        var later := Delivered(open, Others(rest, sender, text));
        assert ([Delivery(open[fd], message)] + later)[1..] == later;
      }
    }
  }

  lemma FirstIsOldest(clients: seq<int>, open: map<int, nat>)
    requires ByAge(clients, open) && clients != []
    ensures ByAge(clients[1..], open) && clients[0] in open
    ensures forall x :: x in clients[1..] ==> open[clients[0]] < open[x]
  {
    forall x | x in clients[1..]
      ensures open[clients[0]] < open[x]
    {
      var i :| 0 <= i < |clients[1..]| && clients[1..][i] == x;
      assert clients[i + 1] == x;
    }
  }

  lemma DeliveredCons(open: map<int, nat>, send: Send, sends: seq<Send>)
    requires send.fd in open
    ensures Delivered(open, [send] + sends) == [Delivery(open[send.fd], send.message)] + Delivered(open, sends)
  {
    assert ([send] + sends)[1..] == sends;
  }

  lemma {:induction false} DeliveredAppend(open: map<int, nat>, a: seq<Send>, b: seq<Send>)
    ensures Delivered(open, a + b) == Delivered(open, a) + Delivered(open, b)
  {
    if a == [] {
      assert a + b == b;
    } else {
      DeliveredAppend(open, a[1..], b);
      assert (a + b)[1..] == a[1..] + b;
    }
  }

  /**
   A broadcast arrives once at each other registered connection and nowhere else; its sender gets the one
   acknowledgement after it.
   */
  lemma BroadcastReachesTheOthersOnce(s: State, c: nat, text: string) returns (news: seq<Delivery>)
    requires Inv(s) && At(s, c, Waiting)
    ensures Dispatch(s, c, Broadcast(text)).log == s.log + news + [Delivery(c, Text("Broadcast sent successfully."))]
    ensures forall x :: x in news ==> x.message == Text("Broadcast: " + text)
    ensures forall d :: Count(news, Delivery(d, Text("Broadcast: " + text))) == if d != c && Registered(s, d) then 1 else 0
  {
    var fd := s.handlers[c].fd;
    assert Owner(s, c);
    var ack := Send(fd, Text("Broadcast sent successfully."));
    news := Delivered(s.open, Others(s.clients, fd, text));
    DeliveredAppend(s.open, Others(s.clients, fd, text), [ack]);
    OneDelivered(s.open, ack);
    forall d: nat
      ensures Count(news, Delivery(d, Text("Broadcast: " + text))) == if d != c && Registered(s, d) then 1 else 0
    {
      OthersReached(s.clients, fd, s.open, text, d);
      RegisteredIsListed(s, d);
      assert forall x :: x in s.clients && s.open[x] == c ==> x == fd by { OneSocketEach(s, c); }
    }
    OthersReached(s.clients, fd, s.open, text, c);
  }

  lemma RegisteredIsListed(s: State, d: nat)
    requires Inv(s)
    ensures Registered(s, d) <==> exists fd :: fd in s.clients && s.open[fd] == d
  {
    if d in s.handlers { assert Owner(s, d); }
    if Registered(s, d) {
      var fd := if d in s.handlers then s.handlers[d].fd else s.acceptor.fd;
      assert fd in s.open && s.open[fd] == d;
    }
  }

  lemma OneSocketEach(s: State, c: nat)
    requires Inv(s) && c in s.handlers
    ensures forall fd :: fd in s.open && s.open[fd] == c ==> fd == s.handlers[c].fd
  {
    forall fd | fd in s.open && s.open[fd] == c
      ensures fd == s.handlers[c].fd
    {
      assert Owned(s, fd) && Owner(s, c);
    }
  }

  // ---------- Direct messages ----------

  /**
   A direct message reaches the connection it was looked up for exactly when that connection has not closed
   meanwhile. Otherwise it goes to whoever was given the descriptor since, or nowhere.
   */
  lemma DirectArrivesIffNotClosed(s: State, c: nat)
    requires Inv(s) && Enabled(s, Sends(c))
    ensures var p := s.handlers[c].place;
            var s' := Do(s, Sends(c));
            && s'.log == s.log + (if p.dest in s.open then [Delivery(s.open[p.dest], Text(p.text))] else [])
                         + [Delivery(c, Text("Direct message sent successfully."))]
            && (p.target in s.handlers <==> p.dest in s.open && s.open[p.dest] == p.target)
  {
    var p := s.handlers[c].place;
    var note, ack := Send(p.dest, Text(p.text)), Send(s.handlers[c].fd, DIRECT_SENT);
    assert Owner(s, c) && TargetKept(s, p.dest, p.target);
    assert [note, ack] == [note] + [ack];
    DeliveredAppend(s.open, [note], [ack]);
    OneDelivered(s.open, note);
    OneDelivered(s.open, ack);
    if p.target in s.handlers { assert Owner(s, p.target); }
    if p.dest in s.open { assert Owned(s, p.dest); }
  }

  /** The system gives accept the lowest descriptor that is free, `first` being the lowest the process leaves it. */
  predicate Lowest(open: map<int, nat>, fd: int, first: int) {
    first <= fd && fd !in open && forall x :: first <= x < fd ==> x in open
  }

  ghost predicate RunsLowest(s: State, schedule: seq<Event>, first: int)
    decreases |schedule|
  {
    schedule == []
    || (Enabled(s, schedule[0]) && (schedule[0].Accepts? ==> Lowest(s.open, schedule[0].fd, first))
        && RunsLowest(Do(s, schedule[0]), schedule[1..], first))
  }

  lemma {:induction false} LowestRunsAreRuns(s: State, schedule: seq<Event>, first: int)
    requires RunsLowest(s, schedule, first)
    ensures Runs(s, schedule)
    ensures (forall fd :: fd in s.open ==> first <= fd) ==> forall fd :: fd in After(s, schedule).open ==> first <= fd
    decreases |schedule|
  {
    if schedule != [] {
      LowestRunsAreRuns(Do(s, schedule[0]), schedule[1..], first);
      OpenAfter(s, schedule[0]);
    }
  }

  lemma OpenAfter(s: State, e: Event)
    requires Enabled(s, e)
    ensures forall fd :: fd in Do(s, e).open ==> fd in s.open || (e.Accepts? && fd == e.fd)
  {
    if e.Receives? { DispatchFrame(s, e.conn, Parse(e.text)); }
    hide Dispatch, Parse, Delivered, Without, UsersWithout;
  }

  lemma LowestStep(s: State, e: Event, rest: seq<Event>, first: int)
    requires Enabled(s, e) && (e.Accepts? ==> Lowest(s.open, e.fd, first)) && RunsLowest(Do(s, e), rest, first)
    ensures RunsLowest(s, [e] + rest, first)
    ensures Runs(s, [e] + rest) && Runs(Do(s, e), rest) && After(s, [e] + rest) == After(Do(s, e), rest)
  {
    assert ([e] + rest)[1..] == rest;
    LowestRunsAreRuns(s, [e] + rest, first);
  }

  /** A new client is accepted, pushed and given its thread. */
  lemma ClientArrives(s: State, fd: int, rest: seq<Event>, first: int)
    requires s.acceptor == Accepting && Lowest(s.open, fd, first)
    requires RunsLowest(Arrived(s, fd), rest, first)
    ensures var schedule := [Accepts(fd)] + ([Pushes] + ([Spawns] + rest));
            && RunsLowest(s, schedule, first) && Runs(s, schedule) && Runs(Arrived(s, fd), rest)
            && After(s, schedule) == After(Arrived(s, fd), rest)
  {
    var s1 := Do(s, Accepts(fd));
    var s2 := Do(s1, Pushes);
    assert Do(s2, Spawns) == Arrived(s, fd);
    hide RunsLowest, Runs, After, Do;
    LowestStep(s2, Spawns, rest, first);
    LowestStep(s1, Pushes, [Spawns] + rest, first);
    LowestStep(s, Accepts(fd), [Pushes] + ([Spawns] + rest), first);
  }

  function Arrived(s: State, fd: int): State {
    s.(open := s.open[fd := s.next], next := s.next + 1, clients := s.clients + [fd],
       handlers := s.handlers[s.next := Handler(fd, Waiting)])
  }

  /** Enough new clients bring any free descriptor back, below which all are taken first. */
  lemma {:induction false} IsHandedOut(s: State, taken: int, fd: int, first: int) returns (schedule: seq<Event>)
    requires s.acceptor == Accepting && first <= taken <= fd && fd !in s.open
    requires (forall x :: first <= x < taken ==> x in s.open) && forall c :: c in s.handlers ==> c < s.next
    ensures RunsLowest(s, schedule, first) && Runs(s, schedule)
    ensures var s' := After(s, schedule);
            && fd in s'.open && s'.open[fd] >= s.next
            && forall c :: c in s.handlers ==> c in s'.handlers && s'.handlers[c] == s.handlers[c]
    decreases fd - taken
  {
    if taken in s.open {
      schedule := IsHandedOut(s, taken + 1, fd, first);
    } else if taken == fd {
      LowestStep(s, Accepts(fd), [], first);
      schedule := [Accepts(fd)] + [];
    } else {
      var rest := IsHandedOut(Arrived(s, taken), taken + 1, fd, first);
      ClientArrives(s, taken, rest, first);
      schedule := [Accepts(taken)] + ([Pushes] + ([Spawns] + rest));
    }
  }

  /** What is left of the server once `b` has gone. */
  function Gone(s: State, b: nat): State
    requires At(s, b, Waiting)
  {
    var fd := s.handlers[b].fd;
    var s' := s.(users := UsersWithout(s.users, fd), clients := Without(s.clients, fd), handlers := s.handlers - {b});
    Sent(s', [Send(fd, LOGGED_OUT)]).(open := s.open - {fd})
  }

  lemma ClientLeaves(s: State, b: nat, rest: seq<Event>, first: int)
    requires At(s, b, Waiting) && RunsLowest(Gone(s, b), rest, first)
    ensures var schedule := [Fails(b)] + ([Unregisters(b)] + ([Closes(b)] + rest));
            && RunsLowest(s, schedule, first) && Runs(s, schedule) && Runs(Gone(s, b), rest)
            && After(s, schedule) == After(Gone(s, b), rest)
  {
    var s1 := Do(s, Fails(b));
    var s2 := Do(s1, Unregisters(b));
    assert Do(s2, Closes(b)).handlers == s.handlers - {b};
    assert Do(s2, Closes(b)) == Gone(s, b);
    hide RunsLowest, Runs, After, Do;
    LowestStep(s2, Closes(b), rest, first);
    LowestStep(s1, Unregisters(b), [Closes(b)] + rest, first);
    LowestStep(s, Fails(b), [Unregisters(b)] + ([Closes(b)] + rest), first);
  }

  lemma {:induction false} LowestAppend(s: State, a: seq<Event>, b: seq<Event>, first: int)
    requires RunsLowest(s, a, first) && Runs(s, a) && RunsLowest(After(s, a), b, first)
    ensures RunsLowest(s, a + b, first) && Runs(s, a + b)
    ensures Runs(After(s, a), b) && After(s, a + b) == After(After(s, a), b)
    decreases |a|
  {
    LowestRunsAreRuns(After(s, a), b, first);
    if a == [] {
      assert a + b == b;
    } else {
      LowestAppend(Do(s, a[0]), a[1..], b, first);
      LowestStep(s, a[0], a[1..] + b, first);
      assert a + b == [a[0]] + (a[1..] + b);
    }
  }

  /**
   The gap between looking a name up and sending is real: from every reachable state in which `b` is the last login
   of a name and `a` and the acceptor are idle, `a` can send to that name and the message for `b` be delivered to a
   connection not yet accepted, even though accept always gives out the lowest free descriptor.
   */
  lemma MisdeliveryIsPossible(history: seq<Event>, a: nat, b: nat, name: string, text: string, first: int)
    requires RunsLowest(Start(), history, first) && Runs(Start(), history)
    requires var s := After(Start(), history);
             && At(s, a, Waiting) && At(s, b, Waiting) && a != b && s.acceptor == Accepting
             && name in s.logins && s.logins[name] == b && ':' !in name
    ensures var s := After(Start(), history);
            exists schedule, c ::
              && RunsLowest(s, schedule, first) && Runs(s, schedule) && s.next <= c
              && schedule != [] && schedule[0] == Receives(a, EventName(Direct("")) + [':'] + (name + [':'] + text))
              && Delivery(c, Text("Direct message from sender: " + text)) in After(s, schedule).log
  {
    var s := After(Start(), history);
    EveryRunIsSafe(history);
    LowestRunsAreRuns(Start(), history, first);
    hide RunsLowest, Runs, After, Inv, Lowest;
    InvParts(s);
    var schedule, c := Misdelivered(s, a, b, name, text, first);
  }

  lemma InvParts(s: State)
    requires Inv(s)
    ensures Sockets(s) && Names(s)
  {
  }

  lemma Misdelivered(s: State, a: nat, b: nat, name: string, text: string, first: int) returns (schedule: seq<Event>, c: nat)
    requires Sockets(s) && Names(s) && (forall fd :: fd in s.open ==> first <= fd)
    requires At(s, a, Waiting) && At(s, b, Waiting) && a != b && s.acceptor == Accepting
    requires name in s.logins && s.logins[name] == b && ':' !in name
    ensures RunsLowest(s, schedule, first) && Runs(s, schedule) && s.next <= c
    ensures schedule != [] && schedule[0] == Receives(a, EventName(Direct("")) + [':'] + (name + [':'] + text))
    ensures Delivery(c, Text("Direct message from sender: " + text)) in After(s, schedule).log
  {
    var data := name + [':'] + text;
    CutAtColon(name, text);
    WrittenCommandIsRead(Direct(data));
    DirectFindsTheLastLogin(s, a, data);
    assert Owner(s, a) && Owner(s, b);
    AcceptorIsNewest(s);
    assert forall c :: c in s.handlers ==> Owner(s, c);
    var e := Receives(a, EventName(Direct("")) + [':'] + data);
    var s1 := Do(s, e);
    hide Parse, Names, Without, UsersWithout, Sockets, EventName;
    var fd := s.handlers[b].fd;
    var s2 := Gone(s1, b);
    assert s1.handlers[a].place == Sending(fd, "Direct message from sender: " + text, b);
    var arrivals := IsHandedOut(s2, first, fd, first);
    var s3 := After(s2, arrivals);
    c := s3.open[fd];
    SentLast(s3, a);
    hide Dispatch, Do, RunsLowest, Runs, After, Gone;
    schedule := SendAfterArrivals(s, e, s1, b, arrivals, a, first);
  }

  lemma SendAfterArrivals(s: State, e: Event, s1: State, b: nat, arrivals: seq<Event>, a: nat, first: int)
    returns (schedule: seq<Event>)
    requires Enabled(s, e) && !e.Accepts? && s1 == Do(s, e) && At(s1, b, Waiting)
    requires RunsLowest(Gone(s1, b), arrivals, first) && Runs(Gone(s1, b), arrivals)
    requires Enabled(After(Gone(s1, b), arrivals), Sends(a))
    ensures schedule != [] && schedule[0] == e && RunsLowest(s, schedule, first) && Runs(s, schedule)
    ensures After(s, schedule) == Do(After(Gone(s1, b), arrivals), Sends(a))
  {
    hide Gone, Do;
    var s3 := After(Gone(s1, b), arrivals);
    LowestStep(s3, Sends(a), [], first);
    LowestAppend(Gone(s1, b), arrivals, [Sends(a)] + [], first);
    var later := arrivals + ([Sends(a)] + []);
    ClientLeaves(s1, b, later, first);
    LowestStep(s, e, [Fails(b)] + ([Unregisters(b)] + ([Closes(b)] + later)), first);
    schedule := [e] + ([Fails(b)] + ([Unregisters(b)] + ([Closes(b)] + later)));
  }

  lemma SentLast(s: State, c: nat)
    requires Enabled(s, Sends(c)) && s.handlers[c].place.dest in s.open
    ensures var p := s.handlers[c].place;
            Delivery(s.open[p.dest], Text(p.text)) in Do(s, Sends(c)).log
  {
    var p := s.handlers[c].place;
    var note, ack := Send(p.dest, Text(p.text)), Send(s.handlers[c].fd, DIRECT_SENT);
    assert [note, ack] == [note] + [ack];
    DeliveredCons(s.open, note, [ack]);
  }
}
