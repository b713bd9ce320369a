/**
 The names accepted in rule source and the canonical spelling of each: the tables of
 actions and of conditions in the order they are searched, split into short groups,
 the lookup of a call name in both, and the mark that tells a canonical spelling from
 an alias, which is what makes the lookup stable.
 */
module Spelling {
  import opened Text

  datatype Spelling = Spelling(canonical: string, aliases: seq<string>)
  {
    predicate Accepts(input: string) {
      canonical == input || input in aliases
    }
  }

  function Plain(name: string): Spelling {
    Spelling(name, [])
  }

  const ROUTING_ACTIONS := [Plain("host"), Plain("upstream"), Plain("direct"), Plain("mock")]

  const LOCAL_ACTIONS := [Spelling("mock.raw", ["mockRaw", "mock_raw", "mock-raw"])]

  const REMOTE_ACTIONS := [
    Spelling("map.remote", ["mapRemote", "map_remote", "map-remote"]), Plain("status"), Plain("redirect")]

  const HEADER_ACTIONS := [Plain("req.header"), Plain("res.header"), Plain("res.status"), Plain("req.method")]

  const COOKIE_ACTIONS := [Plain("req.cookie"), Plain("res.cookie")]

  const AGENT_ACTIONS := [Plain("req.ua"), Plain("req.referer")]

  const SENDER_ACTIONS := [Plain("req.auth"), Plain("req.forwarded")]

  const REQUEST_ACTIONS := [Plain("req.type"), Plain("req.charset")]

  const RESPONSE_ACTIONS := [Plain("res.cors"), Plain("res.type"), Plain("res.charset"), Plain("res.merge")]

  const ENDING_ACTIONS := [Plain("res.trailer"), Plain("attachment")]

  const CONNECTION_ACTIONS := [
    Plain("cache"), Plain("tls"), Plain("url.rewrite"), Plain("url.query"), Plain("delete")]

  const REQUEST_BODY_ACTIONS := [Plain("req.body.set"), Plain("req.body.prepend")]

  const REQUEST_TEXT_ACTIONS := [Plain("req.body.append"), Plain("req.body.replace")]

  const RESPONSE_BODY_ACTIONS := [Plain("res.body.set"), Plain("res.body.prepend")]

  const RESPONSE_TEXT_ACTIONS := [Plain("res.body.append"), Plain("res.body.replace")]

  const CONTROL_ACTIONS := [
    Plain("inject"), Plain("delay"), Plain("throttle"), Plain("bypass"), Plain("hide"), Plain("tag"), Plain("skip")]

  /** Every action name, in the order it is looked up. */
  const ACTION_SYNTAX :=
    ROUTING_ACTIONS + LOCAL_ACTIONS + REMOTE_ACTIONS + HEADER_ACTIONS + COOKIE_ACTIONS + AGENT_ACTIONS
    + SENDER_ACTIONS + REQUEST_ACTIONS + RESPONSE_ACTIONS + ENDING_ACTIONS + CONNECTION_ACTIONS
    + REQUEST_BODY_ACTIONS + REQUEST_TEXT_ACTIONS + RESPONSE_BODY_ACTIONS + RESPONSE_TEXT_ACTIONS + CONTROL_ACTIONS

  const TARGET_CONDITIONS := [Plain("method"), Plain("host"), Plain("url")]

  const ADDRESS_CONDITIONS := [
    Spelling("client.ip", ["clientIp", "ip", "client_ip", "client-ip"]),
    Spelling("server.ip", ["serverIp", "server_ip", "server-ip"])]

  const HEADER_CONDITIONS := [
    Plain("header"),
    Spelling("res.header", ["resHeader", "res_header", "res-header"])]

  const CONTENT_CONDITIONS := [Plain("body"), Plain("status")]

  const LOGIC_CONDITIONS := [
    Plain("chance"), Plain("env"), Plain("any"), Plain("all"), Plain("not")]

  /** Every condition name, in the order it is looked up. */
  const CONDITION_SYNTAX :=
    TARGET_CONDITIONS + ADDRESS_CONDITIONS + HEADER_CONDITIONS + CONTENT_CONDITIONS + LOGIC_CONDITIONS

  /** The first spelling that accepts the input. */
  function CanonicalIn(table: seq<Spelling>, input: string): Option<string> {
    if table == [] then None
    else if table[0].Accepts(input) then Some(table[0].canonical)
    else CanonicalIn(table[1..], input)
  }

  /** The canonical form of a call name: as an action, else as a condition, else itself. */
  function CanonicalCallName(name: string): string {
    var action := CanonicalIn(ACTION_SYNTAX, name);
    if action.Some? then action.value
    else
      var condition := CanonicalIn(CONDITION_SYNTAX, name);
      if condition.Some? then condition.value else name
  }

  predicate IsCanonicalChar(c: char) {
    'a' <= c <= 'z' || c == '.'
  }

  /** What sets canonical spellings apart from aliases. */
  predicate LooksCanonical(s: string) {
    s != [] && s[0] != '.' && s != "ip" && forall i :: 0 <= i < |s| ==> IsCanonicalChar(s[i])
  }

  predicate Separates(spelling: Spelling) {
    && LooksCanonical(spelling.canonical)
    && forall i :: 0 <= i < |spelling.aliases| ==> !LooksCanonical(spelling.aliases[i])
  }

  predicate AllSeparate(table: seq<Spelling>) {
    forall k :: 0 <= k < |table| ==> Separates(table[k])
  }

  lemma RoutingActionsSeparate()
    ensures AllSeparate(ROUTING_ACTIONS)
  {
  }

  lemma LocalActionsSeparate()
    ensures AllSeparate(LOCAL_ACTIONS)
  {
    assert !IsCanonicalChar("mockRaw"[4]) && !IsCanonicalChar("mock_raw"[4]) && !IsCanonicalChar("mock-raw"[4]);
  }

  lemma RemoteActionsSeparate()
    ensures AllSeparate(REMOTE_ACTIONS)
  {
    assert !IsCanonicalChar("mapRemote"[3]) && !IsCanonicalChar("map_remote"[3]) && !IsCanonicalChar("map-remote"[3]);
  }

  lemma HeaderActionsSeparate()
    ensures AllSeparate(HEADER_ACTIONS)
  {
  }

  lemma CookieActionsSeparate()
    ensures AllSeparate(COOKIE_ACTIONS)
  {
  }

  lemma AgentActionsSeparate()
    ensures AllSeparate(AGENT_ACTIONS)
  {
  }

  lemma SenderActionsSeparate()
    ensures AllSeparate(SENDER_ACTIONS)
  {
  }

  lemma RequestActionsSeparate()
    ensures AllSeparate(REQUEST_ACTIONS)
  {
  }

  lemma EndingActionsSeparate()
    ensures AllSeparate(ENDING_ACTIONS)
  {
  }

  lemma ResponseActionsSeparate()
    ensures AllSeparate(RESPONSE_ACTIONS)
  {
  }

  lemma ConnectionActionsSeparate()
    ensures AllSeparate(CONNECTION_ACTIONS)
  {
  }

  lemma RequestTextActionsSeparate()
    ensures AllSeparate(REQUEST_TEXT_ACTIONS)
  {
  }

  lemma RequestBodyActionsSeparate()
    ensures AllSeparate(REQUEST_BODY_ACTIONS)
  {
  }

  lemma ResponseTextActionsSeparate()
    ensures AllSeparate(RESPONSE_TEXT_ACTIONS)
  {
  }

  lemma ResponseBodyActionsSeparate()
    ensures AllSeparate(RESPONSE_BODY_ACTIONS)
  {
  }

  lemma ControlActionsSeparate()
    ensures AllSeparate(CONTROL_ACTIONS)
  {
  }

  lemma TargetConditionsSeparate()
    ensures AllSeparate(TARGET_CONDITIONS)
  {
  }

  lemma AddressConditionsSeparate()
    ensures AllSeparate(ADDRESS_CONDITIONS)
  {
    assert !IsCanonicalChar("clientIp"[6]) && !IsCanonicalChar("client_ip"[6]) && !IsCanonicalChar("client-ip"[6]);
    assert !IsCanonicalChar("serverIp"[6]) && !IsCanonicalChar("server_ip"[6]) && !IsCanonicalChar("server-ip"[6]);
  }

  lemma ContentConditionsSeparate()
    ensures AllSeparate(CONTENT_CONDITIONS)
  {
  }

  lemma HeaderConditionsSeparate()
    ensures AllSeparate(HEADER_CONDITIONS)
  {
    assert !IsCanonicalChar("resHeader"[3]) && !IsCanonicalChar("res_header"[3]) && !IsCanonicalChar("res-header"[3]);
  }

  lemma LogicConditionsSeparate()
    ensures AllSeparate(LOGIC_CONDITIONS)
  {
  }

  lemma ActionsSeparate()
    ensures AllSeparate(ACTION_SYNTAX)
  {
    RoutingActionsSeparate();
    LocalActionsSeparate();
    RemoteActionsSeparate();
    HeaderActionsSeparate();
    CookieActionsSeparate();
    AgentActionsSeparate();
    SenderActionsSeparate();
    RequestActionsSeparate();
    EndingActionsSeparate();
    ResponseActionsSeparate();
    ConnectionActionsSeparate();
    RequestTextActionsSeparate();
    RequestBodyActionsSeparate();
    ResponseTextActionsSeparate();
    ResponseBodyActionsSeparate();
    ControlActionsSeparate();
  }

  lemma ConditionsSeparate()
    ensures AllSeparate(CONDITION_SYNTAX)
  {
    TargetConditionsSeparate();
    AddressConditionsSeparate();
    HeaderConditionsSeparate();
    ContentConditionsSeparate();
    LogicConditionsSeparate();
  }

  lemma {:induction false} LookupIsStable(table: seq<Spelling>, input: string)
    requires AllSeparate(table)
    ensures CanonicalIn(table, input).Some? ==> LooksCanonical(CanonicalIn(table, input).value)
    ensures CanonicalIn(table, input).Some? && LooksCanonical(input) ==> CanonicalIn(table, input).value == input
    decreases |table|
  {
    if table != [] && !table[0].Accepts(input) {
      LookupIsStable(table[1..], input);
    }
  }

  /** A canonical name is its own canonical form, and other names become canonical or stay. */
  lemma CanonicalCallNameIsStable(name: string)
    ensures CanonicalCallName(CanonicalCallName(name)) == CanonicalCallName(name)
    ensures CanonicalCallName(name) == name || LooksCanonical(CanonicalCallName(name))
  {
    ActionsSeparate();
    ConditionsSeparate();
    LookupIsStable(ACTION_SYNTAX, name);
    LookupIsStable(CONDITION_SYNTAX, name);
    LookupIsStable(ACTION_SYNTAX, CanonicalCallName(name));
    LookupIsStable(CONDITION_SYNTAX, CanonicalCallName(name));
  }

  lemma CanonicalStays(name: string)
    requires LooksCanonical(name)
    ensures CanonicalCallName(name) == name
  {
    ActionsSeparate();
    ConditionsSeparate();
    LookupIsStable(ACTION_SYNTAX, name);
    LookupIsStable(CONDITION_SYNTAX, name);
  }

  /** The entry at `k` is the first that accepts the input, or none does and `k` is the length. */
  predicate FirstAccepts(table: seq<Spelling>, input: string, k: nat) {
    && k <= |table| && (forall j :: 0 <= j < k ==> !table[j].Accepts(input))
    && (k < |table| ==> table[k].Accepts(input))
  }

  lemma {:induction false} LookupIs(table: seq<Spelling>, input: string, k: nat)
    requires FirstAccepts(table, input, k)
    ensures CanonicalIn(table, input) == if k == |table| then None else Some(table[k].canonical)
    decreases k
  {
    if k > 0 {
      LookupIs(table[1..], input, k - 1);
    }
  }

  predicate IsLong(spelling: Spelling) {
    |spelling.canonical| > 2 && forall i :: 0 <= i < |spelling.aliases| ==> |spelling.aliases[i]| > 2
  }

  predicate AllLong(table: seq<Spelling>) {
    forall k :: 0 <= k < |table| ==> IsLong(table[k])
  }

  lemma FirstActionNamesAreLong()
    ensures AllLong(ROUTING_ACTIONS) && AllLong(LOCAL_ACTIONS) && AllLong(REMOTE_ACTIONS) && AllLong(HEADER_ACTIONS)
    ensures AllLong(COOKIE_ACTIONS) && AllLong(AGENT_ACTIONS) && AllLong(SENDER_ACTIONS)
    ensures AllLong(REQUEST_ACTIONS) && AllLong(RESPONSE_ACTIONS)
  {
  }

  lemma LastActionNamesAreLong()
    ensures AllLong(ENDING_ACTIONS) && AllLong(CONNECTION_ACTIONS) && AllLong(REQUEST_BODY_ACTIONS)
    ensures AllLong(REQUEST_TEXT_ACTIONS) && AllLong(RESPONSE_BODY_ACTIONS) && AllLong(RESPONSE_TEXT_ACTIONS)
    ensures AllLong(CONTROL_ACTIONS)
  {
  }

  lemma ActionNamesAreLong()
    ensures AllLong(ACTION_SYNTAX)
  {
    FirstActionNamesAreLong();
    LastActionNamesAreLong();
  }

  lemma IpIsAnAlias()
    ensures CanonicalCallName("ip") == "client.ip"
  {
    ActionNamesAreLong();
    assert FirstAccepts(ACTION_SYNTAX, "ip", |ACTION_SYNTAX|);
    LookupIs(ACTION_SYNTAX, "ip", |ACTION_SYNTAX|);
    assert ADDRESS_CONDITIONS[0].aliases[1] == "ip";
    assert FirstAccepts(CONDITION_SYNTAX, "ip", 3);
    LookupIs(CONDITION_SYNTAX, "ip", 3);
  }

  lemma MapRemoteIsAnAlias()
    ensures CanonicalCallName("mapRemote") == "map.remote"
  {
    var front := ROUTING_ACTIONS + LOCAL_ACTIONS + REMOTE_ACTIONS;
    assert front[5].aliases[0] == "mapRemote";
    assert FirstAccepts(front, "mapRemote", 5);
    assert front == ACTION_SYNTAX[..8];
    assert FirstAccepts(ACTION_SYNTAX, "mapRemote", 5);
    LookupIs(ACTION_SYNTAX, "mapRemote", 5);
  }
}
