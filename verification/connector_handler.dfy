/**
  The package dispatcher shared by the hybrid connector's sockets
  (lib/connectors/common/handler.js): a package is handed to the handler
  of its type, and each handler acts only in one state of the socket's
  handshake.

  What the handler does to the socket is returned as a list of effects.
  Decoding and parsing a handshake body (`strdecode` then `JSON.parse`)
  is a parameter: `None` when it throws.  So is whether the socket's
  'handshake' listener throws, since its emit sits inside the same try
  as the parsing.  The handler moves the state only
  from WAIT_ACK to WORKING; the other moves belong to the socket.
 */
module ConnectorHandler {
  import opened Common
  import Utils

  type Byte = Utils.Byte

  const TypeHandshake: Byte := 1
  const TypeHandshakeAck: Byte := 2
  const TypeHeartbeat: Byte := 3
  const TypeData: Byte := 4

  datatype State = Inited | WaitAck | Working | Closed

  /** A decoded package; its type is the first byte of its head. */
  datatype Package = Package(kind: Byte, body: seq<Byte>)

  /** What a handshake carries: the parsed body, or `{}`. */
  datatype Handshake = Parsed(json: string) | EmptyObject

  datatype Effect =
    | EmitHandshake(handshake: Handshake)
    | EmitHeartbeat
    | EmitMessage(pkg: Package)
    | Disconnect
    | Escape            // the listener's exception leaves `handle`

  /** Whether `handlers` has an entry for the type. */
  predicate HasHandler(kind: Byte) {
    kind == TypeHandshake || kind == TypeHandshakeAck || kind == TypeHeartbeat || kind == TypeData
  }

  /** `handleHandshake` in INITED.  Parsing and the first emit share one
      try: when parsing fails, or the socket's 'handshake' listener throws
      on the parsed body, the catch emits `{}`.  An exception the listener
      throws on `{}` is not caught. */
  function HandshakeEffects(parsed: Option<string>, throws: Handshake -> bool): (r: seq<Effect>)
    ensures parsed.None? ==> r == [EmitHandshake(EmptyObject)] + (if throws(EmptyObject) then [Escape] else [])
    ensures parsed.Some? ==>
              && r != []
              && r[0] == EmitHandshake(Parsed(parsed.value))
              && (!throws(Parsed(parsed.value)) <==> r == [r[0]])
              && (throws(Parsed(parsed.value)) ==>
                    r[1..] == [EmitHandshake(EmptyObject)] + (if throws(EmptyObject) then [Escape] else []))
  {
    var fallback := [EmitHandshake(EmptyObject)] + (if throws(EmptyObject) then [Escape] else []);
    match parsed
    case None => fallback
    case Some(json) =>
      if throws(Parsed(json)) then [EmitHandshake(Parsed(json))] + fallback
      else [EmitHandshake(Parsed(json))]
  }

  /** `handle(socket, pkg)`.  `parse` is the decoding of a handshake body
      (`None` when it throws) and `throws` says on which handshakes the
      socket's listener throws. */
  function Handle(st: State, pkg: Package, parse: seq<Byte> -> Option<string>, throws: Handshake -> bool)
    : (r: (State, seq<Effect>))
    // an unknown type disconnects the socket, whatever its state
    ensures !HasHandler(pkg.kind) ==> r == (st, [Disconnect])
    // a handshake is answered only before the handshake
    ensures pkg.kind == TypeHandshake ==>
              r.0 == st &&
              r.1 == (if st != Inited then [] else HandshakeEffects(parse(pkg.body), throws))
    // the acknowledgement completes the handshake, and only it does
    ensures pkg.kind == TypeHandshakeAck ==>
              r == if st == WaitAck then (Working, [EmitHeartbeat]) else (st, [])
    ensures pkg.kind == TypeHeartbeat ==> r == (st, if st == Working then [EmitHeartbeat] else [])
    ensures pkg.kind == TypeData ==> r == (st, if st == Working then [EmitMessage(pkg)] else [])
    ensures r.0 != st ==> st == WaitAck && r.0 == Working
  {
    if pkg.kind == TypeHandshake then
      if st != Inited then (st, [])
      else (st, HandshakeEffects(parse(pkg.body), throws))
    else if pkg.kind == TypeHandshakeAck then
      if st != WaitAck then (st, []) else (Working, [EmitHeartbeat])
    else if pkg.kind == TypeHeartbeat then
      (st, if st == Working then [EmitHeartbeat] else [])
    else if pkg.kind == TypeData then
      (st, if st == Working then [EmitMessage(pkg)] else [])
    else
      (st, [Disconnect])
  }

  /** A handshake reaches the listener at most twice, the second time as
      `{}`; the second emit happens exactly when the listener threw on a
      body that parsed, and the exception leaves `handle` exactly when the
      listener throws on the `{}` it is given. */
  lemma HandshakeEmitsAtMostTwice(parsed: Option<string>, throws: Handshake -> bool)
    ensures var r := HandshakeEffects(parsed, throws);
            && 1 <= |r| <= 3
            && (forall i :: 0 <= i < |r| ==> r[i].EmitHandshake? || (r[i].Escape? && i == |r| - 1))
            && (|r| >= 2 && r[1].EmitHandshake? <==> parsed.Some? && throws(Parsed(parsed.value)))
            && (|r| >= 2 && r[1].EmitHandshake? ==> r[1] == EmitHandshake(EmptyObject))
            && (Escape in r <==> throws(EmptyObject) && (parsed.None? || throws(Parsed(parsed.value))))
  {
  }

  /** Packages handled one after the other, with nothing else moving the
      state in between. */
  function Run(st: State, pkgs: seq<Package>, parse: seq<Byte> -> Option<string>, throws: Handshake -> bool): (r: (State, seq<Effect>))
    decreases |pkgs|
  {
    if pkgs == [] then (st, [])
    else
      var (st1, out1) := Handle(st, pkgs[0], parse, throws);
      var (st2, out2) := Run(st1, pkgs[1..], parse, throws);
      (st2, out1 + out2)
  }

  predicate HasAck(pkgs: seq<Package>) {
    exists i :: 0 <= i < |pkgs| && pkgs[i].kind == TypeHandshakeAck
  }

  lemma HasAckCons(pkgs: seq<Package>)
    requires pkgs != []
    ensures HasAck(pkgs) <==> pkgs[0].kind == TypeHandshakeAck || HasAck(pkgs[1..])
  {
    if HasAck(pkgs[1..]) {
      var i :| 0 <= i < |pkgs[1..]| && pkgs[1..][i].kind == TypeHandshakeAck;
      assert pkgs[i + 1].kind == TypeHandshakeAck;
    }
    if HasAck(pkgs) && pkgs[0].kind != TypeHandshakeAck {
      var i :| 0 <= i < |pkgs| && pkgs[i].kind == TypeHandshakeAck;
      assert pkgs[1..][i - 1].kind == TypeHandshakeAck;
    }
  }

  /** Only an acknowledgement while waiting for one moves the state:
      afterwards the socket is working, and otherwise it is where it was. */
  lemma {:induction false} RunFinalState(st: State, pkgs: seq<Package>, parse: seq<Byte> -> Option<string>, throws: Handshake -> bool)
    ensures Run(st, pkgs, parse, throws).0 == if st == WaitAck && HasAck(pkgs) then Working else st
    decreases |pkgs|
  {
    if pkgs != [] {
      var st1 := Handle(st, pkgs[0], parse, throws).0;
      RunFinalState(st1, pkgs[1..], parse, throws);
      HasAckCons(pkgs);
    }
  }

  /** The packages a working socket passes on, in order. */
  function DataPackages(pkgs: seq<Package>): (r: seq<Package>)
    ensures forall p :: p in r ==> p in pkgs && p.kind == TypeData
    decreases |pkgs|
  {
    if pkgs == [] then []
    else (if pkgs[0].kind == TypeData then [pkgs[0]] else []) + DataPackages(pkgs[1..])
  }

  /** The messages among a list of effects. */
  function Messages(effects: seq<Effect>): (r: seq<Package>)
    ensures |r| <= |effects|
    decreases |effects|
  {
    if effects == [] then []
    else (if effects[0].EmitMessage? then [effects[0].pkg] else []) + Messages(effects[1..])
  }

  lemma {:induction false} MessagesAppend(a: seq<Effect>, b: seq<Effect>)
    ensures Messages(a + b) == Messages(a) + Messages(b)
    decreases |a|
  {
    if a == [] {
      assert a + b == b;
    } else {
      assert (a + b)[0] == a[0];
      assert (a + b)[1..] == a[1..] + b;
      MessagesAppend(a[1..], b);
      var h := if a[0].EmitMessage? then [a[0].pkg] else [];
      assert Messages(a + b) == h + (Messages(a[1..]) + Messages(b));
      assert h + (Messages(a[1..]) + Messages(b)) == (h + Messages(a[1..])) + Messages(b);
    }
  }

  /** A working socket emits every data package as a message, in order,
      and nothing else as a message. */
  lemma {:induction false} WorkingPassesData(pkgs: seq<Package>, parse: seq<Byte> -> Option<string>, throws: Handshake -> bool)
    ensures Messages(Run(Working, pkgs, parse, throws).1) == DataPackages(pkgs)
    decreases |pkgs|
  {
    if pkgs != [] {
      var (st1, out1) := Handle(Working, pkgs[0], parse, throws);
      WorkingPassesData(pkgs[1..], parse, throws);
      MessagesAppend(out1, Run(st1, pkgs[1..], parse, throws).1);
    }
  }

  /** Before the handshake is acknowledged no message and no heartbeat is
      emitted: a socket that has not yet answered the handshake only
      reports handshakes, disconnects and its listener's escaping
      exceptions. */
  lemma {:induction false} NothingBeforeAck(st: State, pkgs: seq<Package>, parse: seq<Byte> -> Option<string>, throws: Handshake -> bool)
    requires st == Inited || (st == WaitAck && !HasAck(pkgs))
    ensures forall e :: e in Run(st, pkgs, parse, throws).1 ==> e.EmitHandshake? || e.Disconnect? || e.Escape?
    ensures st == WaitAck ==> forall e :: e in Run(st, pkgs, parse, throws).1 ==> e.Disconnect?
    decreases |pkgs|
  {
    if pkgs != [] {
      HasAckCons(pkgs);
      NothingBeforeAck(st, pkgs[1..], parse, throws);
    }
  }

  /** Every package without a handler costs one disconnect, in any state. */
  lemma UnknownTypesDisconnect(st: State, pkg: Package, parse: seq<Byte> -> Option<string>, throws: Handshake -> bool)
    ensures Disconnect in Handle(st, pkg, parse, throws).1 <==> !HasHandler(pkg.kind)
  {
  }
}
