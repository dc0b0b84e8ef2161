/** The handshake: how a client presents its JWT, in the upgrade request or in a first frame,
    and what a server behind proxies that may drop the header makes of it. */
module Handshake {
  import opened Formats
  import opened Hub

  const POLICY_VIOLATION := 1008
  const PROTOCOL_ERROR := 1002
  const JWT_REQUIRED := "auth.jwt required before hello"
  const JWT_INVALID := "auth.jwt invalid"
  const IDENTITY_MISMATCH := "hello.node_id must match authenticated identity"

  // ---------------------------------------------------------------- the server

  /** A frame's kind and, unless its payload is malformed, what it carries. */
  datatype Frame = AuthJWT(token: Option<string>) | Hello(nodeID: Option<string>) | OtherFrame

  /** `verify` yields the subject of a token that is valid and allows the profile. */
  datatype Authenticator = Authenticator(mode: AuthMode, allowFirstFrameFallback: bool,
                                         verify: string -> Option<string>)

  datatype HandshakeAuth = HandshakeAuth(mode: AuthMode, identity: Identity, needsJWT: bool)

  /** The upgrade request: the common name of the verified peer certificate, if there is one,
      and the Authorization header, empty if there is none. */
  datatype Request = Request(tls: bool, peerCN: Option<string>, authorization: string)

  datatype Upgrade = Upgraded(hs: HandshakeAuth) | Refused(status: int)

  datatype Served = Accepted(identity: Identity, node: string) | Closed(code: int, reason: string)

  predicate IsSpace(c: char) {
    c == ' ' || '\t' <= c <= '\r'
  }

  predicate IsBlankText(s: string) {
    forall c <- s :: IsSpace(c)
  }

  /** The runs of non-space characters, `word` being the one so far. */
  function Fields(word: string, s: string): seq<string>
    decreases |s|
  {
    var ended := if word == "" then [] else [word];
    if s == "" then ended
    else if IsSpace(s[0]) then ended + Fields("", s[1..])
    else Fields(word + [s[0]], s[1..])
  }

  function Lower(c: char): char {
    if 'A' <= c <= 'Z' then c + ' ' else c
  }

  predicate EqualFold(a: string, b: string) {
    |a| == |b| && forall i | 0 <= i < |a| :: Lower(a[i]) == Lower(b[i])
  }

  function BearerToken(header: string): Option<string> {
    var parts := Fields("", header);
    if |parts| == 2 && EqualFold(parts[0], "Bearer") then Some(parts[1]) else None
  }

  function PreUpgrade(a: Authenticator, r: Request): Upgrade {
    if !r.tls then Refused(400)
    else if a.mode == MTLS then
      if r.peerCN.Some? && r.peerCN.value != "" then Upgraded(HandshakeAuth(MTLS, r.peerCN.value, false))
        else Refused(401)
    else if IsBlankText(r.authorization) then
      if a.allowFirstFrameFallback then Upgraded(HandshakeAuth(JWT, "", true)) else Refused(401)
    else match BearerToken(r.authorization)
      case None => Refused(401)
      case Some(token) =>
        match a.verify(token)
        case None => Refused(401)
        case Some(subject) => Upgraded(HandshakeAuth(JWT, subject, false))
  }

  /** The hello must come next, name a node, and name the authenticated identity. */
  function ServeHello(hs: HandshakeAuth, frames: seq<Frame>): Served {
    if frames == [] || !frames[0].Hello? then Closed(PROTOCOL_ERROR, "hello required")
    else if frames[0].nodeID.None? || frames[0].nodeID.value == "" then Closed(PROTOCOL_ERROR, "hello payload invalid")
    else if hs.identity != "" && frames[0].nodeID.value != hs.identity then Closed(POLICY_VIOLATION, IDENTITY_MISMATCH)
    else Accepted(hs.identity, frames[0].nodeID.value)
  }

  /** What the handshake makes of the frames that arrive in time. */
  function Serve(a: Authenticator, hs: HandshakeAuth, frames: seq<Frame>): Served {
    if !hs.needsJWT then ServeHello(hs, frames)
    else if frames == [] || !frames[0].AuthJWT? then Closed(POLICY_VIOLATION, JWT_REQUIRED)
    else if frames[0].token.None? then Closed(POLICY_VIOLATION, JWT_INVALID)
    else match a.verify(frames[0].token.value)
      case None => Closed(POLICY_VIOLATION, JWT_INVALID)
      case Some(subject) => ServeHello(HandshakeAuth(JWT, subject, false), frames[1..])
  }

  /** The server's end of a connection: the frames that arrive in time, and how it closed. */
  class ServerConn {
    var incoming: seq<Frame>
    var closed: Option<(int, string)>

    constructor (frames: seq<Frame>)
      ensures incoming == frames && closed == None
    {
      incoming, closed := frames, None;
    }

    /** The next frame; nothing when the wait ends first. */
    method Receive() returns (frame: Option<Frame>)
      modifies this`incoming
      ensures if old(incoming) == [] then frame == None && incoming == []
              else frame == Some(old(incoming)[0]) && incoming == old(incoming)[1..]
    {
      frame := None;
      if incoming != [] { frame, incoming := Some(incoming[0]), incoming[1..]; }
    }

    method Close(code: int, reason: string)
      modifies this`closed
      ensures closed == Some((code, reason))
    {
      closed := Some((code, reason));
    }
  }

  method CompleteJWT(a: Authenticator, conn: ServerConn) returns (hs: Option<HandshakeAuth>, reason: string)
    modifies conn`incoming
    ensures var before := old(conn.incoming);
            if before == [] || !before[0].AuthJWT? then
              hs.None? && reason == JWT_REQUIRED
            else if before[0].token.None? || a.verify(before[0].token.value).None? then
              hs.None? && reason == JWT_INVALID
            else
              && hs == Some(HandshakeAuth(JWT, a.verify(before[0].token.value).value, false))
              && conn.incoming == before[1..]
  {
    var frame := conn.Receive();
    if frame.None? || !frame.value.AuthJWT? { return None, JWT_REQUIRED; }
    if frame.value.token.None? { return None, JWT_INVALID; }
    var subject := a.verify(frame.value.token.value);
    if subject.None? { return None, JWT_INVALID; }
    return Some(HandshakeAuth(JWT, subject.value, false)), "";
  }

  method ServeConn(a: Authenticator, hs0: HandshakeAuth, conn: ServerConn) returns (served: Served)
    requires conn.closed == None
    modifies conn
    ensures served == Serve(a, hs0, old(conn.incoming))
    ensures conn.closed == if served.Closed? then Some((served.code, served.reason)) else None
  {
    var hs := hs0;
    if hs.needsJWT {
      var done, reason := CompleteJWT(a, conn);
      if done.None? {
        conn.Close(POLICY_VIOLATION, reason);
        return Closed(POLICY_VIOLATION, reason);
      }
      hs := done.value;
    }
    var frame := conn.Receive();
    if frame.None? || !frame.value.Hello? {
      conn.Close(PROTOCOL_ERROR, "hello required");
      return Closed(PROTOCOL_ERROR, "hello required");
    }
    var hello := frame.value;
    if hello.nodeID.None? || hello.nodeID.value == "" {
      conn.Close(PROTOCOL_ERROR, "hello payload invalid");
      return Closed(PROTOCOL_ERROR, "hello payload invalid");
    }
    if hs.identity != "" && hello.nodeID.value != hs.identity {
      conn.Close(POLICY_VIOLATION, IDENTITY_MISMATCH);
      return Closed(POLICY_VIOLATION, IDENTITY_MISMATCH);
    }
    return Accepted(hs.identity, hello.nodeID.value);
  }

  // ------------------------------------------------------------ who gets in

  /** The ASCII white space. */
  predicate White(c: char) {
    c == ' ' || c == '\t' || c == '\n' || c == '\r' || c == 11 as char || c == 12 as char
  }

  predicate Blank(s: string) {
    forall c <- s :: White(c)
  }

  lemma BlankIsBlank(s: string)
    ensures IsBlankText(s) <==> Blank(s)
  {
    assert forall c <- s :: IsSpace(c) <==> White(c);
  }

  predicate SpaceFree(s: string) {
    forall c <- s :: !White(c)
  }

  /** The header reads: the scheme "Bearer" in any case, space, the token; perhaps with space
      around. */
  predicate Reads(header: string, pre: string, scheme: string, mid: string, token: string, post: string) {
    && header == pre + scheme + mid + token + post
    && Blank(pre) && Blank(mid) && Blank(post) && mid != ""
    && |scheme| == 6 && (forall i | 0 <= i < 6 :: scheme[i] == "Bearer"[i] || scheme[i] == "bEARER"[i])
    && token != "" && SpaceFree(token)
  }

  ghost predicate PresentsBearer(header: string, token: string) {
    exists pre: string, scheme: string, mid: string, post: string :: Reads(header, pre, scheme, mid, token, post)
  }

  lemma {:induction false} FieldsAfterBlanks(s: string, rest: string)
    requires Blank(s)
    ensures Fields("", s + rest) == Fields("", rest)
    decreases |s|
  {
    if s == "" {
      assert s + rest == rest;
    } else {
      FieldsAfterBlanks(s[1..], rest);
      assert (s + rest)[1..] == s[1..] + rest && s[0] in s && IsSpace(s[0]);
    }
  }

  lemma {:induction false} FieldsAfterWord(word: string, s: string, rest: string)
    requires word + s != "" && SpaceFree(s) && (rest == "" || White(rest[0]))
    ensures Fields(word, s + rest) == [word + s] + Fields("", rest)
    decreases |s|
  {
    if s == "" {
      assert s + rest == rest && word + s == word;
    } else {
      assert s[0] in s && !IsSpace(s[0]);
      FieldsAfterWord(word + [s[0]], s[1..], rest);
      assert (s + rest)[1..] == s[1..] + rest;
      assert word + s == word + [s[0]] + s[1..];
    }
  }

  lemma {:induction false} SplitBlanks(s: string) returns (pre: string, rest: string)
    ensures s == pre + rest && Blank(pre) && (rest == "" || !White(rest[0]))
    decreases |s|
  {
    pre, rest := "", s;
    if s != "" && White(s[0]) {
      pre, rest := SplitBlanks(s[1..]);
      pre := [s[0]] + pre;
    }
  }

  lemma {:induction false} SplitWord(s: string) returns (word: string, rest: string)
    ensures s == word + rest && SpaceFree(word) && (rest == "" || White(rest[0]))
    ensures s != "" && !White(s[0]) ==> word != ""
    decreases |s|
  {
    word, rest := "", s;
    if s != "" && !White(s[0]) {
      word, rest := SplitWord(s[1..]);
      word := [s[0]] + word;
    }
  }

  /** The first field, and what comes after it. */
  lemma FirstField(s: string) returns (pre: string, word: string, rest: string)
    ensures s == pre + word + rest && Blank(pre) && SpaceFree(word) && (rest == "" || White(rest[0]))
    ensures if word == "" then rest == "" && Fields("", s) == [] else Fields("", s) == [word] + Fields("", rest)
  {
    var tail;
    pre, tail := SplitBlanks(s);
    word, rest := SplitWord(tail);
    FieldsAfterBlanks(pre, tail);
    if word != "" {
      FieldsAfterWord("", word, rest);
      assert "" + word == word;
    }
    assert s == pre + word + rest;
  }

  lemma SchemeFolds(scheme: string)
    ensures EqualFold(scheme, "Bearer") <==>
            |scheme| == 6 && forall i | 0 <= i < 6 :: scheme[i] == "Bearer"[i] || scheme[i] == "bEARER"[i]
  {
    if |scheme| == 6 {
      assert forall c: char, d: char | d in "Bearer" :: Lower(c) == Lower(d) <==> c == d || c == Other(d);
      assert forall i | 0 <= i < 6 :: "bEARER"[i] == Other("Bearer"[i]) && "Bearer"[i] in "Bearer";
    }
  }

  function Other(c: char): char
    requires c in "Bearer"
  {
    if c == 'B' then 'b' else c - ' '
  }

  lemma FieldsOfReads(header: string, pre: string, scheme: string, mid: string, token: string, post: string)
    requires Reads(header, pre, scheme, mid, token, post) && SpaceFree(scheme)
    ensures Fields("", header) == [scheme, token]
  {
    var r3 := token + post;
    var r2 := mid + r3;
    assert header == pre + (scheme + r2);
    FieldsAfterBlanks(pre, scheme + r2);
    FieldsAfterWord("", scheme, r2);
    FieldsAfterBlanks(mid, r3);
    FieldsAfterWord("", token, post);
    FieldsAfterBlanks(post, "");
    assert post + "" == post && "" + scheme == scheme && "" + token == token;
  }

  lemma SchemeSpaceFree(scheme: string)
    requires |scheme| == 6 && forall i | 0 <= i < 6 :: scheme[i] == "Bearer"[i] || scheme[i] == "bEARER"[i]
    ensures SpaceFree(scheme)
  {
    assert forall i | 0 <= i < 6 :: !White("Bearer"[i]) && !White("bEARER"[i]);
  }

  lemma ReadsYield(header: string, pre: string, scheme: string, mid: string, token: string, post: string)
    requires Reads(header, pre, scheme, mid, token, post)
    ensures BearerToken(header) == Some(token)
    ensures !IsBlankText(header) && !Blank(header)
  {
    SchemeSpaceFree(scheme);
    SchemeFolds(scheme);
    FieldsOfReads(header, pre, scheme, mid, token, post);
    BlankIsBlank(header);
    assert token[0] in token && token[0] in header;
  }

  lemma TokenRead(header: string, token: string)
    requires BearerToken(header) == Some(token)
    ensures PresentsBearer(header, token)
  {
    var pre, scheme, r2 := FirstField(header);
    var mid, word, r4 := FirstField(r2);
    var post, word', r6 := FirstField(r4);
    assert Fields("", header) == [scheme, word];
    SchemeFolds(scheme);
    assert Reads(header, pre, scheme, mid, token, post);
  }

  /** Exactly such headers yield a token, and they are not blank. */
  lemma BearerExactly(header: string, token: string)
    ensures BearerToken(header) == Some(token) <==> PresentsBearer(header, token)
    ensures PresentsBearer(header, token) ==> !IsBlankText(header) && !Blank(header)
  {
    if BearerToken(header) == Some(token) { TokenRead(header, token); }
    if pre: string, scheme: string, mid: string, post: string :| Reads(header, pre, scheme, mid, token, post) {
      ReadsYield(header, pre, scheme, mid, token, post);
    }
  }

  /** The header that the client sends is read back as its token. */
  lemma BearerRoundTrip(token: string)
    requires token != "" && SpaceFree(token)
    ensures BearerToken("Bearer " + token) == Some(token) && !IsBlankText("Bearer " + token)
  {
    assert Reads("Bearer " + token, "", "Bearer", " ", token, "");
    BearerExactly("Bearer " + token, token);
  }

  /** Which upgrade requests go through, and as whom: in mTLS mode by certificate, in JWT mode
      by a verified token in the header or, with the fallback, by no header at all. */
  lemma UpgradesExactly(a: Authenticator, r: Request, hs: HandshakeAuth)
    ensures PreUpgrade(a, r) == Upgraded(hs) <==>
            r.tls
            && match a.mode
               case MTLS => hs.mode == MTLS && !hs.needsJWT && hs.identity != "" && r.peerCN == Some(hs.identity)
               case JWT =>
                 hs.mode == JWT
                 && if hs.needsJWT then Blank(r.authorization) && a.allowFirstFrameFallback && hs.identity == ""
                    else exists token: string ::
                           PresentsBearer(r.authorization, token) && a.verify(token) == Some(hs.identity)
    ensures PreUpgrade(a, r).Refused? ==> PreUpgrade(a, r).status == if r.tls then 401 else 400
  {
    if r.tls && a.mode == JWT {
      BlankIsBlank(r.authorization);
      forall token: string
        ensures BearerToken(r.authorization) == Some(token) <==> PresentsBearer(r.authorization, token)
        ensures PresentsBearer(r.authorization, token) ==> !IsBlankText(r.authorization)
      {
        BearerExactly(r.authorization, token);
      }
    }
  }

  /** The frames authenticate `identity`, if that is still to be done, and greet as `node`. */
  predicate Introduces(a: Authenticator, hs: HandshakeAuth, frames: seq<Frame>, identity: Identity, node: string) {
    && node != ""
    && if hs.needsJWT then
         && |frames| >= 2 && frames[0].AuthJWT? && frames[0].token.Some?
         && a.verify(frames[0].token.value) == Some(identity) && frames[1] == Hello(Some(node))
       else |frames| >= 1 && identity == hs.identity && frames[0] == Hello(Some(node))
  }

  /** A connection is accepted if and only if its frames introduce it, under no other name than
      the authenticated one; and it is closed for a mismatch, or for want of a token or of a
      valid one, exactly when that is the reason. */
  lemma ServesExactly(a: Authenticator, hs: HandshakeAuth, frames: seq<Frame>)
    ensures forall id: Identity, node: string ::
              Serve(a, hs, frames) == Accepted(id, node) <==>
              Introduces(a, hs, frames, id, node) && (id == "" || node == id)
    ensures Serve(a, hs, frames) == Closed(1008, "hello.node_id must match authenticated identity") <==>
            exists id: Identity, node: string :: Introduces(a, hs, frames, id, node) && id != "" && node != id
    ensures Serve(a, hs, frames) == Closed(1008, "auth.jwt required before hello") <==>
            hs.needsJWT && (frames == [] || !frames[0].AuthJWT?)
    ensures Serve(a, hs, frames) == Closed(1008, "auth.jwt invalid") <==>
            hs.needsJWT && frames != [] && frames[0].AuthJWT?
            && (frames[0].token.None? || a.verify(frames[0].token.value).None?)
    ensures Serve(a, hs, frames).Closed? && Serve(a, hs, frames).code != 1008 ==>
              Serve(a, hs, frames) == Closed(1002, "hello required")
              || Serve(a, hs, frames) == Closed(1002, "hello payload invalid")
    ensures var rest := if hs.needsJWT && frames != [] then frames[1..] else frames;
            && (Serve(a, hs, frames) == Closed(1002, "hello required") ==> rest == [] || !rest[0].Hello?)
            && (Serve(a, hs, frames) == Closed(1002, "hello payload invalid") ==>
                  rest != [] && (rest[0] == Hello(None) || rest[0] == Hello(Some(""))))
  {
    var served := Serve(a, hs, frames);
    assert |JWT_REQUIRED| == 30 && |JWT_INVALID| == 16 && |IDENTITY_MISMATCH| == 47;
    assert |"hello required"| == 14 && |"hello payload invalid"| == 21;
    if served == Closed(POLICY_VIOLATION, IDENTITY_MISMATCH) {
      var id := if hs.needsJWT then a.verify(frames[0].token.value).value else hs.identity;
      var node := (if hs.needsJWT then frames[1] else frames[0]).nodeID.value;
      assert Introduces(a, hs, frames, id, node);
    }
  }

  /** From the request to the table: whoever gets in has proved the identity it is known by,
      with a certificate or a token, and greets under that very name. So sessions are as the
      session table expects them, when no token is valid for an empty subject. */
  lemma WhoGetsIn(a: Authenticator, r: Request, hs: HandshakeAuth, frames: seq<Frame>, id: Identity, node: string)
    requires PreUpgrade(a, r) == Upgraded(hs) && Serve(a, hs, frames) == Accepted(id, node)
    requires forall token: string :: a.verify(token) != Some("")
    ensures r.tls && node == id != ""
    ensures a.mode == MTLS ==> r.peerCN == Some(id)
    ensures a.mode == JWT ==>
              exists token: string ::
                && a.verify(token) == Some(id)
                && (PresentsBearer(r.authorization, token)
                    || (Blank(r.authorization) && a.allowFirstFrameFallback
                        && frames != [] && frames[0] == AuthJWT(Some(token))))
    ensures forall serial: nat :: Authenticated([Op.Register(Session(serial, node, id, hs.mode))])
  {
    UpgradesExactly(a, r, hs);
    ServesExactly(a, hs, frames);
  }

  // ---------------------------------------------------------------- the client

  datatype SendVia = Header | FirstFrame | Auto

  datatype Config = Config(mode: AuthMode, sendVia: SendVia, nodeID: string)

  function EffectiveSendVia(cfg: Config, useFirstFrame: bool): Option<SendVia> {
    if cfg.mode != JWT then None
    else if cfg.sendVia == Auto && useFirstFrame then Some(FirstFrame)
    else Some(cfg.sendVia)
  }

  function DialHeader(cfg: Config, useFirstFrame: bool, token: string): string {
    var via := EffectiveSendVia(cfg, useFirstFrame);
    if via == Some(Header) || via == Some(Auto) then "Bearer " + token else ""
  }

  function ClientFrames(cfg: Config, useFirstFrame: bool, token: string): seq<Frame> {
    (if EffectiveSendVia(cfg, useFirstFrame) == Some(FirstFrame) then [AuthJWT(Some(token))] else [])
        + [Hello(Some(cfg.nodeID))]
  }

  /** What the network does to one attempt: whether it gets through at all, whether a proxy
      strips the header, how many frames arrive in time, and whether the client sees the
      close frame, not just a broken connection. */
  datatype Network = Network(reachable: bool, stripsHeader: bool, inTime: nat, closeSeen: bool)

  datatype Attempt = Attempt(net: Network, token: string)

  datatype Outcome = NotReached | Rejected(status: int) | Ended(served: Served)

  /** The first `n` of the frames, or all. */
  function Arriving(frames: seq<Frame>, n: nat): seq<Frame> {
    if n <= |frames| then frames[..n] else frames
  }

  function OutcomeOf(cfg: Config, a: Authenticator, useFirstFrame: bool, at: Attempt): Outcome {
    if !at.net.reachable then NotReached
    else
      var header := if at.net.stripsHeader then "" else DialHeader(cfg, useFirstFrame, at.token);
      match PreUpgrade(a, Request(true, None, header))
      case Refused(status) => Rejected(status)
      case Upgraded(hs) => Ended(Serve(a, hs, Arriving(ClientFrames(cfg, useFirstFrame, at.token), at.net.inTime)))
  }

  /** The client sees the server ask for a token in the first frame. */
  predicate SeesJWTRequired(o: Outcome, net: Network) {
    o == Ended(Closed(POLICY_VIOLATION, JWT_REQUIRED)) && net.closeSeen
  }

  function FlagAfter(cfg: Config, useFirstFrame: bool, o: Outcome, net: Network): bool {
    if cfg.mode == JWT && EffectiveSendVia(cfg, useFirstFrame) == Some(Auto) && SeesJWTRequired(o, net) then true
    else if cfg.mode == JWT && EffectiveSendVia(cfg, useFirstFrame) == Some(Header) && o.Ended? && o.served.Accepted?
      then false
    else useFirstFrame
  }

  class Agent {
    const cfg: Config
    var jwtUseFirstFrame: bool

    constructor (cfg: Config)
      ensures this.cfg == cfg && !jwtUseFirstFrame
    {
      this.cfg, jwtUseFirstFrame := cfg, false;
    }

    /** One turn of the reconnect loop, up to the welcome. */
    method Connect(a: Authenticator, at: Attempt) returns (o: Outcome)
      modifies this
      ensures o == OutcomeOf(cfg, a, old(jwtUseFirstFrame), at)
      ensures jwtUseFirstFrame == FlagAfter(cfg, old(jwtUseFirstFrame), o, at.net)
    {
      if !at.net.reachable { return NotReached; }
      var header := DialHeader(cfg, jwtUseFirstFrame, at.token);
      if at.net.stripsHeader { header := ""; }
      var upgrade := PreUpgrade(a, Request(true, None, header));
      if upgrade.Refused? { return Rejected(upgrade.status); }
      var frames := [];
      if cfg.mode == JWT && EffectiveSendVia(cfg, jwtUseFirstFrame) == Some(FirstFrame) {
        frames := frames + [AuthJWT(Some(at.token))];
      }
      frames := frames + [Hello(Some(cfg.nodeID))];
      assert frames == ClientFrames(cfg, jwtUseFirstFrame, at.token);
      var conn := new ServerConn(Arriving(frames, at.net.inTime));
      var served := ServeConn(a, upgrade.hs, conn);
      o := Ended(served);
      if served.Closed? {
        if cfg.mode == JWT && cfg.sendVia == Auto && EffectiveSendVia(cfg, jwtUseFirstFrame) == Some(Auto)
            && SeesJWTRequired(o, at.net) {
          jwtUseFirstFrame := true;
        }
        return;
      }
      if cfg.mode == JWT && EffectiveSendVia(cfg, jwtUseFirstFrame) == Some(Header) {
        jwtUseFirstFrame := false;
      }
    }
  }

  // ------------------------------------------------------------ runs of attempts

  /** Whether the client uses the first frame when it makes its `i`-th attempt. */
  function FlagAt(cfg: Config, a: Authenticator, run: seq<Attempt>, i: nat): bool
    requires i <= |run|
  {
    if i == 0 then false
    else
      var flag := FlagAt(cfg, a, run, i - 1);
      FlagAfter(cfg, flag, OutcomeOf(cfg, a, flag, run[i - 1]), run[i - 1].net)
  }

  function OutcomeAt(cfg: Config, a: Authenticator, run: seq<Attempt>, i: nat): Outcome
    requires i < |run|
  {
    OutcomeOf(cfg, a, FlagAt(cfg, a, run, i), run[i])
  }

  predicate JWTRequiredAt(cfg: Config, a: Authenticator, run: seq<Attempt>, i: nat)
    requires i < |run|
  {
    OutcomeAt(cfg, a, run, i) == Ended(Closed(POLICY_VIOLATION, JWT_REQUIRED))
  }

  /** A client in auto mode, a server that allows the fallback, and tokens that are valid for
      the client's own node. */
  ghost predicate AutoSetup(cfg: Config, a: Authenticator, run: seq<Attempt>) {
    && cfg.mode == JWT && cfg.sendVia == Auto && cfg.nodeID != ""
    && a.mode == JWT && a.allowFirstFrameFallback
    && forall at <- run :: ValidToken(cfg, a, at.token)
  }

  ghost predicate ValidToken(cfg: Config, a: Authenticator, token: string) {
    token != "" && SpaceFree(token) && a.verify(token) == Some(cfg.nodeID)
  }

  /** How an attempt ends once the server knows who it is, `left` frames still arriving in time. */
  function Greeting(nodeID: string, identity: Identity, left: nat): Served {
    if left == 0 then Closed(1002, "hello required")
    else if identity != "" && nodeID != identity then Closed(1008, "hello.node_id must match authenticated identity")
    else Accepted(identity, nodeID)
  }

  /** How one attempt against a JWT server ends, for every client, network and token: the token
      is presented in the header, unless that is stripped, or in the first frame, if the client
      is told to or has switched to it, or not at all. */
  lemma AttemptEndsAnyhow(cfg: Config, a: Authenticator, flag: bool, at: Attempt)
    requires cfg.nodeID != "" && a.mode == JWT
    requires at.token != "" && SpaceFree(at.token)
    ensures var first := cfg.mode == JWT && (cfg.sendVia == FirstFrame || (cfg.sendVia == Auto && flag));
            var header := cfg.mode == JWT && !first && !at.net.stripsHeader;
            var who := a.verify(at.token);
            OutcomeOf(cfg, a, flag, at) ==
              if !at.net.reachable then NotReached
              else if header then
                if who.None? then Rejected(401) else Ended(Greeting(cfg.nodeID, who.value, at.net.inTime))
              else if !a.allowFirstFrameFallback then Rejected(401)
              else if !first || at.net.inTime == 0 then Ended(Closed(1008, "auth.jwt required before hello"))
              else if who.None? then Ended(Closed(1008, "auth.jwt invalid"))
              else Ended(Greeting(cfg.nodeID, who.value, at.net.inTime - 1))
  {
    var first := cfg.mode == JWT && (cfg.sendVia == FirstFrame || (cfg.sendVia == Auto && flag));
    assert ClientFrames(cfg, flag, at.token) == FramesOf(first, at.token, cfg.nodeID);
    Dialled(a, at.token);
    Greeted(a, first, at.token, cfg.nodeID, at.net.inTime);
  }

  function FramesOf(first: bool, token: string, nodeID: string): seq<Frame> {
    if first then [AuthJWT(Some(token)), Hello(Some(nodeID))] else [Hello(Some(nodeID))]
  }

  lemma Dialled(a: Authenticator, token: string)
    requires a.mode == JWT && token != "" && SpaceFree(token)
    ensures PreUpgrade(a, Request(true, None, "Bearer " + token)) ==
            if a.verify(token).None? then Refused(401) else Upgraded(HandshakeAuth(JWT, a.verify(token).value, false))
    ensures PreUpgrade(a, Request(true, None, "")) ==
            if a.allowFirstFrameFallback then Upgraded(HandshakeAuth(JWT, "", true)) else Refused(401)
  {
    BearerRoundTrip(token);
  }

  lemma Greeted(a: Authenticator, first: bool, token: string, nodeID: string, inTime: nat)
    requires nodeID != ""
    ensures var frames := Arriving(FramesOf(first, token, nodeID), inTime);
            && (!first ==> forall id: Identity ::
                  Serve(a, HandshakeAuth(JWT, id, false), frames) == Greeting(nodeID, id, inTime))
            && Serve(a, HandshakeAuth(JWT, "", true), frames) ==
               if !first || inTime == 0 then Closed(1008, "auth.jwt required before hello")
               else if a.verify(token).None? then Closed(1008, "auth.jwt invalid")
               else Greeting(nodeID, a.verify(token).value, inTime - 1)
  {
  }

  /** Only a client in auto mode ever changes how it presents its token. */
  lemma {:induction false} OnlyAutoSwitches(cfg: Config, a: Authenticator, run: seq<Attempt>, n: nat)
    requires n <= |run| && (cfg.mode != JWT || cfg.sendVia != Auto)
    ensures !FlagAt(cfg, a, run, n)
    decreases n
  {
    if n > 0 { OnlyAutoSwitches(cfg, a, run, n - 1); }
  }

  /** How one attempt with a valid token ends, exactly. */
  lemma AttemptEnds(cfg: Config, a: Authenticator, flag: bool, at: Attempt)
    requires AutoSetup(cfg, a, [at])
    ensures var frames := if flag then 2 else 1;
            OutcomeOf(cfg, a, flag, at) ==
              if !at.net.reachable then NotReached
              else if (flag && at.net.inTime == 0) || (!flag && at.net.stripsHeader)
                then Ended(Closed(POLICY_VIOLATION, JWT_REQUIRED))
              else if at.net.inTime < frames then Ended(Closed(PROTOCOL_ERROR, "hello required"))
              else Ended(Accepted(cfg.nodeID, cfg.nodeID))
  {
    assert at in [at];
    AttemptEndsAnyhow(cfg, a, flag, at);
  }

  lemma AttemptEndsAt(cfg: Config, a: Authenticator, run: seq<Attempt>, i: nat)
    requires AutoSetup(cfg, a, run) && i < |run|
    ensures AutoSetup(cfg, a, [run[i]])
    ensures JWTRequiredAt(cfg, a, run, i) <==>
              run[i].net.reachable && if FlagAt(cfg, a, run, i) then run[i].net.inTime == 0 else run[i].net.stripsHeader
  {
    assert run[i] in run;
    AttemptEnds(cfg, a, FlagAt(cfg, a, run, i), run[i]);
  }

  /** Once the client has seen the server ask for a first-frame token, it sends one in every
      later attempt, whatever the proxies do; before that, it sends the header. */
  lemma {:induction false} SwitchIsFinal(cfg: Config, a: Authenticator, run: seq<Attempt>, i: nat, j: nat)
    requires AutoSetup(cfg, a, run) && i < j <= |run|
    requires JWTRequiredAt(cfg, a, run, i) && run[i].net.closeSeen
    ensures FlagAt(cfg, a, run, j)
    decreases j
  {
    if i < j - 1 { SwitchIsFinal(cfg, a, run, i, j - 1); }
  }

  /** After a rejection that the client saw, an attempt that gets through is accepted with the
      authenticated identity if its two frames arrive in time, whether or not the header is
      stripped; and it is rejected for want of a token exactly when not even one does. */
  lemma AutoModeSettles(cfg: Config, a: Authenticator, run: seq<Attempt>, i: nat, j: nat)
    requires AutoSetup(cfg, a, run) && i < j < |run|
    requires JWTRequiredAt(cfg, a, run, i) && run[i].net.closeSeen
    requires run[j].net.reachable
    ensures OutcomeAt(cfg, a, run, j) == Ended(Accepted(cfg.nodeID, cfg.nodeID)) <==> run[j].net.inTime >= 2
    ensures JWTRequiredAt(cfg, a, run, j) <==> run[j].net.inTime == 0
  {
    SwitchIsFinal(cfg, a, run, i, j);
    AttemptEndsAt(cfg, a, run, j);
    AttemptEnds(cfg, a, true, run[j]);
  }

  /** How many of the first `n` attempts ended in a rejection that the client saw. */
  function SeenRejections(cfg: Config, a: Authenticator, run: seq<Attempt>, n: nat): nat
    requires n <= |run|
  {
    if n == 0 then 0
    else SeenRejections(cfg, a, run, n - 1) + if SeesJWTRequired(OutcomeAt(cfg, a, run, n - 1), run[n - 1].net) then 1
      else 0
  }

  /** What makes a client switch that still sends the header: it gets through without it, and
      sees the server's answer. */
  predicate Switches(net: Network) {
    net.reachable && net.stripsHeader && net.closeSeen
  }

  /** The server waits in vain for the first frame, and the client sees its answer. */
  predicate TooLate(net: Network) {
    net.reachable && net.inTime == 0 && net.closeSeen
  }

  /** The same for a client that has switched. */
  predicate LateAt(cfg: Config, a: Authenticator, run: seq<Attempt>, i: nat)
    requires i < |run|
  {
    FlagAt(cfg, a, run, i) && TooLate(run[i].net)
  }

  /** One attempt's share in the flag and in the count. */
  lemma AttemptCounts(cfg: Config, a: Authenticator, run: seq<Attempt>, i: nat)
    requires AutoSetup(cfg, a, run) && i < |run|
    ensures var seen := SeesJWTRequired(OutcomeAt(cfg, a, run, i), run[i].net);
            && (FlagAt(cfg, a, run, i + 1) <==> FlagAt(cfg, a, run, i) || seen)
            && (seen <==> if FlagAt(cfg, a, run, i) then TooLate(run[i].net) else Switches(run[i].net))
  {
    AttemptEndsAt(cfg, a, run, i);
  }

  /** `early` says that none of the attempts before was late. */
  lemma OneMoreAttempt(cfg: Config, a: Authenticator, run: seq<Attempt>, n: nat, early: bool)
    requires AutoSetup(cfg, a, run) && n < |run|
    requires SeenRejections(cfg, a, run, n) <= 1 <==> early
    requires SeenRejections(cfg, a, run, n) > 0 <==> FlagAt(cfg, a, run, n)
    ensures SeenRejections(cfg, a, run, n + 1) <= 1 <==> early && !LateAt(cfg, a, run, n)
    ensures SeenRejections(cfg, a, run, n + 1) > 0 <==> FlagAt(cfg, a, run, n + 1)
  {
    AttemptCounts(cfg, a, run, n);
  }

  ghost predicate NoneLate(cfg: Config, a: Authenticator, run: seq<Attempt>, n: nat)
    requires n <= |run|
  {
    forall j | 0 <= j < n :: !LateAt(cfg, a, run, j)
  }

  /** At most one seen rejection means that no attempt after the switch is late. */
  lemma {:induction false} RejectionsByFlag(cfg: Config, a: Authenticator, run: seq<Attempt>, n: nat)
    requires AutoSetup(cfg, a, run) && n <= |run|
    ensures SeenRejections(cfg, a, run, n) <= 1 <==> NoneLate(cfg, a, run, n)
    ensures SeenRejections(cfg, a, run, n) > 0 <==> FlagAt(cfg, a, run, n)
    decreases n
  {
    if n > 0 {
      var early := NoneLate(cfg, a, run, n - 1);
      RejectionsByFlag(cfg, a, run, n - 1);
      OneMoreAttempt(cfg, a, run, n - 1, early);
      assert NoneLate(cfg, a, run, n) <==> early && !LateAt(cfg, a, run, n - 1);
    }
  }

  ghost predicate SwitchedBefore(run: seq<Attempt>, n: nat)
    requires n <= |run|
  {
    exists i :: 0 <= i < n && Switches(run[i].net)
  }

  lemma {:induction false} FlagExactly(cfg: Config, a: Authenticator, run: seq<Attempt>, n: nat)
    requires AutoSetup(cfg, a, run) && n <= |run|
    ensures FlagAt(cfg, a, run, n) <==> SwitchedBefore(run, n)
    decreases n
  {
    if n > 0 {
      FlagExactly(cfg, a, run, n - 1);
      AttemptCounts(cfg, a, run, n - 1);
      assert SwitchedBefore(run, n) <==> SwitchedBefore(run, n - 1) || Switches(run[n - 1].net);
    }
  }

  /** Over any run of reconnects, in terms of what the network does alone: the client sees a
      rejection if and only if some attempt gets through without its header, and it sees at
      most one if and only if no later attempt arrives without its first frame. In between,
      the flag tells whether it has seen one. */
  lemma RejectionsExactly(cfg: Config, a: Authenticator, run: seq<Attempt>, n: nat)
    requires AutoSetup(cfg, a, run) && n <= |run|
    ensures SeenRejections(cfg, a, run, n) > 0 <==> exists i :: 0 <= i < n && Switches(run[i].net)
    ensures SeenRejections(cfg, a, run, n) <= 1 <==>
            !exists i, j :: 0 <= i < j < n && Switches(run[i].net) && TooLate(run[j].net)
    ensures SeenRejections(cfg, a, run, n) > 0 <==> FlagAt(cfg, a, run, n)
  {
    RejectionsByFlag(cfg, a, run, n);
    FlagExactly(cfg, a, run, n);
    forall j | 0 <= j < n
      ensures LateAt(cfg, a, run, j) <==> TooLate(run[j].net) && exists i :: 0 <= i < j && Switches(run[i].net)
    {
      FlagExactly(cfg, a, run, j);
    }
  }

  /** So over any run in which some frame of each attempt arrives in time, whatever is
      stripped when, it sees at most one. */
  lemma AtMostOneRejection(cfg: Config, a: Authenticator, run: seq<Attempt>, n: nat)
    requires AutoSetup(cfg, a, run) && n <= |run|
    requires forall at <- run :: at.net.inTime > 0
    ensures SeenRejections(cfg, a, run, n) == if FlagAt(cfg, a, run, n) then 1 else 0
  {
    RejectionsExactly(cfg, a, run, n);
    forall j | 0 <= j < n
      ensures !TooLate(run[j].net)
    {
      assert run[j] in run;
    }
  }

  /** Without that, there can be more: a server that waits in vain for the first frame rejects
      the client in the same words. */
  lemma LateFramesRejectAgain(cfg: Config, a: Authenticator, token: string)
    requires AutoSetup(cfg, a, [Attempt(Network(true, true, 1, true), token),
                                Attempt(Network(true, true, 0, true), token)])
    ensures SeenRejections(cfg, a, [Attempt(Network(true, true, 1, true), token),
                                    Attempt(Network(true, true, 0, true), token)], 2) == 2
  {
    var run := [Attempt(Network(true, true, 1, true), token), Attempt(Network(true, true, 0, true), token)];
    AttemptEndsAt(cfg, a, run, 0);
    AttemptEndsAt(cfg, a, run, 1);
    SwitchIsFinal(cfg, a, run, 0, 1);
    assert SeenRejections(cfg, a, run, 1) == 1;
  }
}
