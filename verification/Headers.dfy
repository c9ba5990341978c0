/**
 Relaying headers across the proxy (src/proxy.rs), after sections 7.6.1 and 7.8 of RFC 9110.

 A `HeaderMap` is the list of its fields in iteration order, with names in lower case. Only the
 values under each name, in their order, have meaning: see `RelayIgnoresNameOrder`.
 */
module Headers {
  import opened Results
  import opened Stripping
  import opened Text
  import opened Trimming

  datatype Field = Field(name: string, value: string)

  /** `HeaderMap::get_all`. */
  function Values(fields: seq<Field>, name: string): seq<string> {
    if |fields| == 0 then []
    else if fields[0].name == name then [fields[0].value] + Values(fields[1..], name)
    else Values(fields[1..], name)
  }

  const HOP_BY_HOP: set<string> :=
    {"connection", "keep-alive", "proxy-authenticate", "proxy-authorization", "te", "trailer",
     "transfer-encoding", "upgrade"}

  /** `HeaderValue::to_str` succeeds on visible ASCII, spaces and tabs. */
  predicate Readable(value: string) {
    forall i :: 0 <= i < |value| ==> ' ' <= value[i] <= '~' || value[i] == '\t'
  }

  /** The names that `Connection` values list; an unreadable value lists none. */
  function Named(values: seq<string>): set<string> {
    set value, piece | value in values && Readable(value) && piece in Split(value, ',') && Trim(piece) != ""
      :: Lower(Trim(piece))
  }

  function ConnectionSpecific(fields: seq<Field>): set<string> {
    Named(Values(fields, "connection"))
  }

  predicate IsHopByHop(name: string, connectionSpecific: set<string>) {
    name in HOP_BY_HOP || name in connectionSpecific
  }

  /** The protocol offered: the first `Upgrade` value, when `Connection` names `upgrade`. */
  function RequestedUpgrade(fields: seq<Field>): Option<string> {
    var protocols := Values(fields, "upgrade");
    if "upgrade" in ConnectionSpecific(fields) && |protocols| > 0 then Some(protocols[0]) else None
  }

  function EndToEnd(fields: seq<Field>, dropped: set<string>): seq<Field> {
    if |fields| == 0 then []
    else if fields[0].name in dropped then EndToEnd(fields[1..], dropped)
    else [fields[0]] + EndToEnd(fields[1..], dropped)
  }

  /** The pair that negotiates an upgrade on the next hop. */
  function Offer(protocol: Option<string>): seq<Field> {
    match protocol
    case None => []
    case Some(p) => [Field("connection", "upgrade"), Field("upgrade", p)]
  }

  function RelayedRequest(fields: seq<Field>): seq<Field> {
    EndToEnd(fields, {"host"} + HOP_BY_HOP + ConnectionSpecific(fields)) + Offer(RequestedUpgrade(fields))
  }

  lemma {:induction false} EndToEndUpTo(fields: seq<Field>, dropped: set<string>, i: nat)
    requires i < |fields|
    ensures EndToEnd(fields[..i + 1], dropped) ==
            EndToEnd(fields[..i], dropped) + if fields[i].name in dropped then [] else [fields[i]]
  {
    if i > 0 {
      assert fields[..i + 1][1..] == fields[1..][..i] && fields[..i][1..] == fields[1..][..i - 1];
      EndToEndUpTo(fields[1..], dropped, i - 1);
    }
  }

  // ── The loops of the handler ──

  method RelayRequest(fields: seq<Field>) returns (relayed: seq<Field>)
    ensures relayed == RelayedRequest(fields)
  {
    var connectionSpecific := ConnectionSpecific(fields);
    ghost var dropped := {"host"} + HOP_BY_HOP + connectionSpecific;
    relayed := [];
    for i := 0 to |fields|
      invariant relayed == EndToEnd(fields[..i], dropped)
    {
      EndToEndUpTo(fields, dropped, i);
      if fields[i].name != "host" && !IsHopByHop(fields[i].name, connectionSpecific) {
        relayed := relayed + [fields[i]];
      }
    }
    assert fields[..|fields|] == fields;
    var protocol := RequestedUpgrade(fields);
    if protocol.Some? {
      relayed := relayed + [Field("connection", "upgrade"), Field("upgrade", protocol.value)];
    }
  }

  const SWITCHING_PROTOCOLS: nat := 101

  function RelayedResponse(status: nat, fields: seq<Field>, clientUpgrade: bool): Result<seq<Field>> {
    var kept := EndToEnd(fields, HOP_BY_HOP + ConnectionSpecific(fields));
    var protocols := Values(fields, "upgrade");
    if status != SWITCHING_PROTOCOLS then Ok(kept)
    else if !clientUpgrade then Err(Docker)
    else Ok(kept + Offer(if |protocols| > 0 then Some(protocols[0]) else None))
  }

  /** `clientUpgrade` says whether the client's connection can be upgraded. */
  method RelayResponse(status: nat, fields: seq<Field>, clientUpgrade: bool) returns (result: Result<seq<Field>>)
    ensures result == RelayedResponse(status, fields, clientUpgrade)
  {
    var connectionSpecific := ConnectionSpecific(fields);
    ghost var dropped := HOP_BY_HOP + connectionSpecific;
    var relayed := [];
    for i := 0 to |fields|
      invariant relayed == EndToEnd(fields[..i], dropped)
    {
      EndToEndUpTo(fields, dropped, i);
      if !IsHopByHop(fields[i].name, connectionSpecific) {
        relayed := relayed + [fields[i]];
      }
    }
    assert fields[..|fields|] == fields && relayed + [] == relayed;
    if status == SWITCHING_PROTOCOLS {
      if !clientUpgrade {
        return Err(Docker);
      }
      var protocols := Values(fields, "upgrade");
      if |protocols| > 0 {
        relayed := relayed + [Field("connection", "upgrade"), Field("upgrade", protocols[0])];
      }
    }
    return Ok(relayed);
  }

  // ── What Connection values name ──

  predicate Blank(c: char) {
    c == ' ' || c == '\t'
  }

  predicate NoBlanks(s: string) {
    forall i :: 0 <= i < |s| ==> !Blank(s[i])
  }

  /** Between blanks, a piece is the name in capital or small letters. */
  ghost predicate IsToken(piece: string, name: string, i: nat, j: nat) {
    && i < j <= |piece| && !Blank(piece[i]) && !Blank(piece[j - 1])
    && (forall k :: 0 <= k < i || j <= k < |piece| ==> Blank(piece[k]))
    && SameLetters(piece[i..j], name)
  }

  /** A `Connection` value of visible characters, blanks and tabs has the name between two commas. */
  ghost predicate ValueNames(value: string, name: string) {
    && (forall k :: 0 <= k < |value| ==> 0x20 <= value[k] as int <= 0x7E || value[k] == '\t')
    && exists piece <- Split(value, ',') :: exists i: nat, j: nat :: IsToken(piece, name, i, j)
  }

  ghost predicate ConnectionNames(fields: seq<Field>, name: string) {
    exists value <- Values(fields, "connection") :: ValueNames(value, name)
  }

  lemma {:induction false} BlankSpaces(parts: seq<string>)
    requires AllSpaces(Space, parts) && Readable(Concat(parts))
    ensures forall k :: 0 <= k < |Concat(parts)| ==> Blank(Concat(parts)[k])
  {
    if |parts| > 0 {
      var s := Concat(parts);
      assert forall k :: 0 <= k < |parts[0]| ==> parts[0][k] == s[k];
      assert forall k :: 0 <= k < |Concat(parts[1..])| ==> Concat(parts[1..])[k] == s[|parts[0]| + k];
      ReadableSpace(parts[0]);
      BlankSpaces(parts[1..]);
    }
  }

  lemma ReadableSpace(s: string)
    requires Readable(s)
    ensures Space(s) <==> |s| == 1 && Blank(s[0])
  {
  }

  lemma {:induction false} BlanksAreSpaces(s: string) returns (parts: seq<string>)
    requires forall k :: 0 <= k < |s| ==> Blank(s[k])
    ensures AllSpaces(Space, parts) && Concat(parts) == s
  {
    if s == "" {
      parts := [];
    } else {
      var rest := BlanksAreSpaces(s[1..]);
      parts := [s[..1]] + rest;
      assert parts[1..] == rest && s == s[..1] + s[1..];
    }
  }

  lemma TokenIsBare(token: string)
    requires Readable(token) && token != "" && !Blank(token[0]) && !Blank(token[|token| - 1])
    ensures Bare(Space, token)
  {
    forall i | 0 <= i <= |token| ensures !Space(token[..i]) && !Space(token[i..]) {
      ReadableSpace(token[..i]);
      ReadableSpace(token[i..]);
      assert i > 0 ==> token[..i][0] == token[0];
    }
  }

  lemma TokenIsTrimmed(piece: string, i: nat, j: nat)
    requires Readable(piece) && i < j <= |piece| && !Blank(piece[i]) && !Blank(piece[j - 1])
    requires forall k :: 0 <= k < i || j <= k < |piece| ==> Blank(piece[k])
    ensures IsTrimmed(piece, piece[i..j])
  {
    var a := BlanksAreSpaces(piece[..i]);
    var b := BlanksAreSpaces(piece[j..]);
    TokenIsBare(piece[i..j]);
    assert piece == Concat(a) + piece[i..j] + Concat(b);
  }

  lemma TokenAmongBlanks(a: string, token: string, b: string) returns (i: nat, j: nat)
    requires token != "" && !Blank(token[0]) && !Blank(token[|token| - 1])
    requires (forall k :: 0 <= k < |a| ==> Blank(a[k])) && (forall k :: 0 <= k < |b| ==> Blank(b[k]))
    ensures var piece := a + token + b;
            && i < j <= |piece| && piece[i..j] == token && !Blank(piece[i]) && !Blank(piece[j - 1])
            && forall k :: 0 <= k < i || j <= k < |piece| ==> Blank(piece[k])
  {
    i, j := |a|, |a| + |token|;
  }

  lemma ReadableParts(a: string, token: string, b: string)
    requires Readable(a + token + b)
    ensures Readable(a) && Readable(token) && Readable(b)
  {
    var s := a + token + b;
    assert forall k :: 0 <= k < |a| ==> a[k] == s[k];
    assert forall k :: 0 <= k < |token| ==> token[k] == s[|a| + k];
    assert forall k :: 0 <= k < |b| ==> b[k] == s[|a| + |token| + k];
  }

  lemma BareHasNoBlanks(token: string)
    requires Readable(token) && token != "" && Bare(Space, token)
    ensures !Blank(token[0]) && !Blank(token[|token| - 1])
  {
    ReadableSpace(token[..1]);
    ReadableSpace(token[|token| - 1..]);
  }

  lemma TrimmedIsToken(piece: string) returns (i: nat, j: nat)
    requires Readable(piece) && Trim(piece) != ""
    ensures i < j <= |piece| && Trim(piece) == piece[i..j] && !Blank(piece[i]) && !Blank(piece[j - 1])
    ensures forall k :: 0 <= k < i || j <= k < |piece| ==> Blank(piece[k])
  {
    TrimExactly(piece, Trim(piece));
    i, j := SplitOffBlanks(piece, Trim(piece));
  }

  lemma SplitOffBlanks(piece: string, token: string) returns (i: nat, j: nat)
    requires Readable(piece) && token != "" && IsTrimmed(piece, token)
    ensures i < j <= |piece| && token == piece[i..j] && !Blank(piece[i]) && !Blank(piece[j - 1])
    ensures forall k :: 0 <= k < i || j <= k < |piece| ==> Blank(piece[k])
  {
    var a, b :| AllSpaces(Space, a) && AllSpaces(Space, b) && piece == Concat(a) + token + Concat(b);
    ReadableParts(Concat(a), token, Concat(b));
    BlankSpaces(a);
    BlankSpaces(b);
    BareHasNoBlanks(token);
    i, j := TokenAmongBlanks(Concat(a), token, Concat(b));
  }

  lemma {:induction false} PiecesAreReadable(value: string, sep: char)
    requires Readable(value)
    ensures forall piece <- Split(value, sep) :: Readable(piece)
  {
    if value != "" {
      PiecesAreReadable(value[1..], sep);
      var rest := Split(value[1..], sep);
      assert rest[0] in rest && forall piece <- rest[1..] :: piece in rest;
    }
  }

  lemma ReadTokenNames(piece: string, name: string)
    requires Readable(piece) && Trim(piece) != "" && Lower(Trim(piece)) == name
    ensures exists i: nat, j: nat :: IsToken(piece, name, i, j)
  {
    var i, j := TrimmedIsToken(piece);
    LowerExactly(piece[i..j], name);
    assert IsToken(piece, name, i, j);
  }

  lemma TokenIsRead(piece: string, name: string, i: nat, j: nat)
    requires Readable(piece) && IsToken(piece, name, i, j)
    ensures Trim(piece) != "" && Lower(Trim(piece)) == name
  {
    TokenIsTrimmed(piece, i, j);
    TrimExactly(piece, piece[i..j]);
    LowerExactly(piece[i..j], name);
  }

  /** One piece: trimmed and in small letters it is the name exactly when the name stands between its blanks. */
  lemma PieceNames(piece: string, name: string)
    requires Readable(piece)
    ensures Trim(piece) != "" && Lower(Trim(piece)) == name <==> exists i: nat, j: nat :: IsToken(piece, name, i, j)
  {
    if Trim(piece) != "" && Lower(Trim(piece)) == name {
      ReadTokenNames(piece, name);
    }
    if i: nat, j: nat :| IsToken(piece, name, i, j) {
      TokenIsRead(piece, name, i, j);
    }
  }

  /** A name is connection-specific exactly when some readable `Connection` value lists it, in any casing. */
  lemma ConnectionSpecificExactly(fields: seq<Field>, name: string)
    ensures name in ConnectionSpecific(fields) <==> ConnectionNames(fields, name)
  {
    var values := Values(fields, "connection");
    if name in ConnectionSpecific(fields) {
      var value, piece :| value in values && Readable(value) && piece in Split(value, ',') && Trim(piece) != ""
        && Lower(Trim(piece)) == name;
      PiecesAreReadable(value, ',');
      PieceNames(piece, name);
      assert ValueNames(value, name);
    }
    if ConnectionNames(fields, name) {
      var value :| value in values && ValueNames(value, name);
      var piece :| piece in Split(value, ',') && exists i: nat, j: nat :: IsToken(piece, name, i, j);
      PiecesAreReadable(value, ',');
      PieceNames(piece, name);
    }
  }

  /** What the client offers: its first `Upgrade` value, if a `Connection` value lists `upgrade` in any casing. */
  ghost function Offered(fields: seq<Field>): Option<string> {
    var protocols := Values(fields, "upgrade");
    if ConnectionNames(fields, "upgrade") && |protocols| > 0 then Some(protocols[0]) else None
  }

  lemma RequestedUpgradeExactly(fields: seq<Field>)
    ensures RequestedUpgrade(fields) == Offered(fields)
  {
    ConnectionSpecificExactly(fields, "upgrade");
  }

  lemma ListedTokenIsNamed(before: seq<string>, token: string, after: seq<string>, name: string)
    requires SameLetters(token, name) && token != "" && NoBlanks(token) && Free(before + [token] + after, ',')
    requires Readable(Join(before + [token] + after, ','))
    ensures ValueNames(Join(before + [token] + after, ','), name)
  {
    var tokens := before + [token] + after;
    SplitOfJoin(tokens, ',');
    assert tokens[|before|] == token && token in tokens;
    assert token[0..|token|] == token;
    assert IsToken(token, name, 0, |token|);
  }

  /** Every casing of `upgrade`, alone or among other tokens, is an offer. */
  lemma UpgradeInAnyCase(fields: seq<Field>, before: seq<string>, token: string, after: seq<string>)
    requires SameLetters(token, "upgrade") && Free(before, ',') && Free(after, ',')
    requires Join(before + [token] + after, ',') in Values(fields, "connection")
    requires Readable(Join(before + [token] + after, ',')) && |Values(fields, "upgrade")| > 0
    ensures RequestedUpgrade(fields) == Some(Values(fields, "upgrade")[0])
  {
    UpgradeLetters(token);
    assert Free(before + [token] + after, ',');
    ListedTokenIsNamed(before, token, after, "upgrade");
    RequestedUpgradeExactly(fields);
  }

  lemma UpgradeLetters(token: string)
    requires SameLetters(token, "upgrade")
    ensures token != "" && ',' !in token && NoBlanks(token)
  {
    var low := "upgrade";
    assert LowerCase(low);
  }

  /** The well-known names of section 7.6.1 of RFC 9110, with those of proxy authentication. */
  predicate WellKnown(name: string) {
    || name == "connection" || name == "keep-alive" || name == "proxy-authenticate"
    || name == "proxy-authorization" || name == "te" || name == "trailer"
    || name == "transfer-encoding" || name == "upgrade"
  }

  lemma HopByHopExactly(fields: seq<Field>, name: string)
    ensures IsHopByHop(name, ConnectionSpecific(fields)) <==> WellKnown(name) || ConnectionNames(fields, name)
  {
    ConnectionSpecificExactly(fields, name);
  }

  // ── What is relayed ──

  lemma {:induction false} ValuesConcat(a: seq<Field>, b: seq<Field>, name: string)
    ensures Values(a + b, name) == Values(a, name) + Values(b, name)
  {
    if |a| == 0 {
      assert a + b == b;
    } else {
      assert (a + b)[1..] == a[1..] + b;
      ValuesConcat(a[1..], b, name);
    }
  }

  lemma {:induction false} ValuesEndToEnd(fields: seq<Field>, dropped: set<string>, name: string)
    ensures Values(EndToEnd(fields, dropped), name) == if name in dropped then [] else Values(fields, name)
  {
    if |fields| > 0 {
      ValuesEndToEnd(fields[1..], dropped, name);
      var rest := EndToEnd(fields[1..], dropped);
      if fields[0].name !in dropped {
        assert ([fields[0]] + rest)[1..] == rest;
      }
    }
  }

  function OfferValue(protocol: Option<string>, name: string): seq<string> {
    if protocol.None? then []
    else if name == "connection" then ["upgrade"]
    else if name == "upgrade" then [protocol.value]
    else []
  }

  lemma ValuesOffer(protocol: Option<string>, name: string)
    ensures Values(Offer(protocol), name) == OfferValue(protocol, name)
  {
    if protocol.Some? {
      var first, second := [Field("connection", "upgrade")], [Field("upgrade", protocol.value)];
      assert Offer(protocol) == first + second;
      ValuesConcat(first, second, name);
      assert first[1..] == [] && second[1..] == [];
    }
  }

  /**
   What the upstream receives under each name: of the hop-by-hop names and those `Connection`
   lists, only one regenerated pair, present exactly when the client offered an upgrade; nothing
   under `Host`; and under every other name all the values, in order.
   */
  lemma RequestValues(fields: seq<Field>, name: string)
    ensures Values(RelayedRequest(fields), name) ==
            if name == "connection" || name == "upgrade" then OfferValue(Offered(fields), name)
            else if name == "host" || WellKnown(name) || ConnectionNames(fields, name) then []
            else Values(fields, name)
  {
    HopByHopExactly(fields, name);
    RequestedUpgradeExactly(fields);
    var dropped := {"host"} + HOP_BY_HOP + ConnectionSpecific(fields);
    ValuesConcat(EndToEnd(fields, dropped), Offer(RequestedUpgrade(fields)), name);
    ValuesEndToEnd(fields, dropped, name);
    ValuesOffer(RequestedUpgrade(fields), name);
  }

  /**
   What the client receives under each name. The pair stands in a 101 answer to a client that can
   upgrade, and only there.
   */
  lemma ResponseValues(status: nat, fields: seq<Field>, clientUpgrade: bool, name: string)
    ensures var result := RelayedResponse(status, fields, clientUpgrade);
            var switching := status == 101 && |Values(fields, "upgrade")| > 0;
            && (result == Err(Docker) <==> status == 101 && !clientUpgrade)
            && (result.Err? ==> result == Err(Docker))
            && (result.Ok? ==>
                  Values(result.value, name) ==
                  if name == "connection" then if switching then ["upgrade"] else []
                  else if name == "upgrade" then if switching then [Values(fields, "upgrade")[0]] else []
                  else if WellKnown(name) || ConnectionNames(fields, name) then []
                  else Values(fields, name))
  {
    HopByHopExactly(fields, name);
    var dropped := HOP_BY_HOP + ConnectionSpecific(fields);
    var protocols := Values(fields, "upgrade");
    var protocol := if |protocols| > 0 then Some(protocols[0]) else None;
    ValuesEndToEnd(fields, dropped, name);
    ValuesConcat(EndToEnd(fields, dropped), Offer(protocol), name);
    ValuesOffer(protocol, name);
  }

  predicate LowerCase(s: string) {
    forall i :: 0 <= i < |s| ==> 'a' <= s[i] <= 'z'
  }

  lemma LettersAreRead(value: string)
    requires value != "" && LowerCase(value)
    ensures Trim(value) == value && Lower(value) == value
  {
    TokenIsTrimmed(value, 0, |value|);
    assert value[0..|value|] == value;
    TrimExactly(value, value);
    LowerExactly(value, value);
  }

  /** A word in small letters names itself and nothing else. */
  lemma LettersAreNamed(value: string)
    requires value != "" && LowerCase(value)
    ensures Named([value]) == {value}
  {
    SplitWhole(value, ',');
    LettersAreRead(value);
    assert value in [value] && Readable(value) && value in Split(value, ',');
    assert Lower(Trim(value)) in Named([value]);
  }

  lemma OfferedConnection(relayed: seq<Field>, protocol: Option<string>)
    requires Values(relayed, "connection") == OfferValue(protocol, "connection")
    ensures ConnectionSpecific(relayed) == if protocol.Some? then {"upgrade"} else {}
  {
    if protocol.Some? {
      LettersAreNamed("upgrade");
    } else {
      assert Values(relayed, "connection") == [];
    }
  }

  lemma RelayedConnection(fields: seq<Field>)
    ensures ConnectionSpecific(RelayedRequest(fields)) == if RequestedUpgrade(fields).Some? then {"upgrade"} else {}
  {
    RequestValues(fields, "connection");
    RequestedUpgradeExactly(fields);
    OfferedConnection(RelayedRequest(fields), RequestedUpgrade(fields));
  }

  /** The upstream is offered the protocol the client offered, or none if it offered none. */
  lemma OfferSurvives(fields: seq<Field>)
    ensures RequestedUpgrade(RelayedRequest(fields)) == RequestedUpgrade(fields)
  {
    RelayedConnection(fields);
    RequestValues(fields, "upgrade");
    RequestedUpgradeExactly(fields);
  }

  lemma {:induction false} EndToEndConcat(a: seq<Field>, b: seq<Field>, dropped: set<string>)
    ensures EndToEnd(a + b, dropped) == EndToEnd(a, dropped) + EndToEnd(b, dropped)
  {
    if |a| == 0 {
      assert a + b == b;
    } else {
      assert (a + b)[1..] == a[1..] + b;
      EndToEndConcat(a[1..], b, dropped);
    }
  }

  /** Dropping less after dropping more drops nothing. */
  lemma {:induction false} EndToEndTwice(fields: seq<Field>, dropped: set<string>, less: set<string>)
    requires less <= dropped
    ensures EndToEnd(EndToEnd(fields, dropped), less) == EndToEnd(fields, dropped)
  {
    if |fields| > 0 {
      EndToEndTwice(fields[1..], dropped, less);
      if fields[0].name !in dropped {
        var rest := EndToEnd(fields[1..], dropped);
        assert ([fields[0]] + rest)[1..] == rest;
      }
    }
  }

  lemma OfferIsDropped(protocol: Option<string>, dropped: set<string>)
    requires "connection" in dropped && "upgrade" in dropped
    ensures EndToEnd(Offer(protocol), dropped) == []
  {
    if protocol.Some? {
      var first, second := [Field("connection", "upgrade")], [Field("upgrade", protocol.value)];
      assert Offer(protocol) == first + second;
      EndToEndConcat(first, second, dropped);
      assert first[1..] == [] && second[1..] == [];
    }
  }

  /** Relaying what was relayed changes nothing, not even the order of the fields. */
  lemma RelayingTwice(fields: seq<Field>)
    ensures RelayedRequest(RelayedRequest(fields)) == RelayedRequest(fields)
  {
    var dropped := {"host"} + HOP_BY_HOP + ConnectionSpecific(fields);
    var less := {"host"} + HOP_BY_HOP + ConnectionSpecific(RelayedRequest(fields));
    RelayedConnection(fields);
    OfferSurvives(fields);
    EndToEndConcat(EndToEnd(fields, dropped), Offer(RequestedUpgrade(fields)), less);
    EndToEndTwice(fields, dropped, less);
    OfferIsDropped(RequestedUpgrade(fields), less);
    assert EndToEnd(fields, dropped) + [] == EndToEnd(fields, dropped);
  }

  /** The order in which a header map lists its names makes no difference. */
  lemma RelayIgnoresNameOrder(a: seq<Field>, b: seq<Field>)
    requires forall name :: Values(a, name) == Values(b, name)
    ensures forall name :: Values(RelayedRequest(a), name) == Values(RelayedRequest(b), name)
  {
    forall name ensures Values(RelayedRequest(a), name) == Values(RelayedRequest(b), name) {
      RequestValues(a, name);
      RequestValues(b, name);
      assert Values(a, "connection") == Values(b, "connection");
      assert Values(a, "upgrade") == Values(b, "upgrade");
      assert Values(a, name) == Values(b, name);
    }
  }
}
