/**
 Edge protocols and their selection (connection/protocol.go). Instants are nanoseconds; what the remote
 percentage fetcher returns is a parameter.
 */
module Protocols {
  import opened Wrappers

  /** In the order of the source's constants: HTTP2 is the zero value. */
  datatype Protocol = HTTP2 | QUIC

  function FallbackOf(p: Protocol): Option<Protocol> {
    match p
    case HTTP2 => None
    case QUIC => Some(HTTP2)
  }

  // ---------- The fetched percentages ----------

  function Name(p: Protocol): string {
    match p
    case HTTP2 => "http2"
    case QUIC => "quic"
  }

  /** Lower case, for the characters whose lower case is an ASCII letter; the others name no protocol. */
  function LowerChar(c: char): char {
    if 'A' <= c <= 'Z' then (c as int - 'A' as int + 'a' as int) as char
    else if c == '\U{0130}' then 'i'
    else if c == '\U{212A}' then 'k'
    else c
  }

  function Lower(s: string): (t: string)
    ensures |t| == |s| && forall i :: 0 <= i < |s| ==> t[i] == LowerChar(s[i])
  {
    seq(|s|, i requires 0 <= i < |s| => LowerChar(s[i]))
  }

  datatype ProtocolPercent = ProtocolPercent(protocol: string, percentage: int)

  type Percents = seq<ProtocolPercent>

  predicate Names(entry: ProtocolPercent, p: Protocol) {
    Lower(entry.protocol) == Lower(Name(p))
  }

  /** The first entry that names the protocol, or the number of entries. */
  function FirstNaming(percents: Percents, p: Protocol, from: nat): (k: nat)
    requires from <= |percents|
    ensures from <= k <= |percents|
    ensures forall j :: from <= j < k ==> !Names(percents[j], p)
    ensures k < |percents| ==> Names(percents[k], p)
    decreases |percents| - from
  {
    if from == |percents| || Names(percents[from], p) then from else FirstNaming(percents, p, from + 1)
  }

  /** The percentage of a protocol; one that is not listed has none. */
  function Percentage(percents: Percents, p: Protocol): int {
    var k := FirstNaming(percents, p, 0);
    if k < |percents| then percents[k].percentage else 0
  }

  method GetPercentage(percents: Percents, p: Protocol) returns (percentage: int)
    ensures percentage == Percentage(percents, p)
  {
    ghost var first := FirstNaming(percents, p, 0);
    for i := 0 to |percents|
      invariant i <= first
    {
      if Lower(percents[i].protocol) == Lower(Name(p)) {
        return percents[i].percentage;
      }
    }
    return 0;
  }

  lemma NamesAreLower(p: Protocol)
    ensures Lower(Name(p)) == Name(p)
  {
  }

  /** No entry names two protocols, so the percentages of the two do not depend on each other. */
  lemma NamesOne(entry: ProtocolPercent)
    ensures !(Names(entry, HTTP2) && Names(entry, QUIC))
  {
    NamesAreLower(HTTP2);
    NamesAreLower(QUIC);
  }

  /** The names that count for QUIC and for HTTP2, with the one letter outside ASCII whose lower case is an i. */
  lemma NamesIff(entry: ProtocolPercent)
    ensures var s := entry.protocol;
            && (Names(entry, QUIC) <==>
                  |s| == 4 && s[0] in "qQ" && s[1] in "uU" && s[2] in "iI\U{0130}" && s[3] in "cC")
            && (Names(entry, HTTP2) <==>
                  |s| == 5 && s[0] in "hH" && s[1] in "tT" && s[2] in "tT" && s[3] in "pP" && s[4] == '2')
  {
    NamesAreLower(QUIC);
    NamesAreLower(HTTP2);
    assert Names(entry, QUIC) <==> Lower(entry.protocol) == "quic";
    assert Names(entry, HTTP2) <==> Lower(entry.protocol) == "http2";
  }

  /** A protocol has the percentage of the first entry that names it, and zero when none does. */
  lemma PercentageIs(percents: Percents, p: Protocol)
    ensures if forall k :: 0 <= k < |percents| ==> !Names(percents[k], p) then Percentage(percents, p) == 0
            else exists k :: 0 <= k < |percents| && Names(percents[k], p)
                             && Percentage(percents, p) == percents[k].percentage
                             && forall j :: 0 <= j < k ==> !Names(percents[j], p)
  {
    var k := FirstNaming(percents, p, 0);
    if k < |percents| {
      assert Percentage(percents, p) == percents[k].percentage;
    }
  }

  /** The first place of the pool with a percentage above the threshold, or the length of the pool. */
  function FirstAbove(pool: seq<Protocol>, percents: Percents, threshold: int, from: nat): (k: nat)
    requires from <= |pool|
    ensures from <= k <= |pool|
    ensures forall j :: from <= j < k ==> Percentage(percents, pool[j]) <= threshold
    ensures k < |pool| ==> Percentage(percents, pool[k]) > threshold
    decreases |pool| - from
  {
    if from == |pool| || Percentage(percents, pool[from]) > threshold then from
    else FirstAbove(pool, percents, threshold, from + 1)
  }

  /** The first of the pool above the threshold, or the first of all. */
  function Chosen(pool: seq<Protocol>, percents: Percents, threshold: int): (p: Protocol)
    requires pool != []
    ensures p in pool
  {
    var k := FirstAbove(pool, percents, threshold, 0);
    if k < |pool| then pool[k] else pool[0]
  }

  /** With no percentage above the threshold the first of the pool is chosen; otherwise the first above it. */
  lemma ChosenIsFirst(pool: seq<Protocol>, percents: Percents, threshold: int)
    requires pool != []
    ensures var p := Chosen(pool, percents, threshold);
            if forall j :: 0 <= j < |pool| ==> Percentage(percents, pool[j]) <= threshold
            then p == pool[0]
            else exists k :: 0 <= k < |pool| && pool[k] == p && Percentage(percents, p) > threshold
                             && forall j :: 0 <= j < k ==> Percentage(percents, pool[j]) <= threshold
  {
    var k := FirstAbove(pool, percents, threshold, 0);
    if k < |pool| {
      assert pool[k] == Chosen(pool, percents, threshold);
    }
  }

  method GetProtocol(pool: seq<Protocol>, fetched: Option<Percents>, threshold: int)
    returns (p: Option<Protocol>)
    requires pool != []
    ensures p == if fetched.None? then None else Some(Chosen(pool, fetched.value, threshold))
  {
    if fetched.None? {
      return None;
    }
    ghost var first := FirstAbove(pool, fetched.value, threshold, 0);
    for i := 0 to |pool|
      invariant i <= first
    {
      var protocolPercentage := GetPercentage(fetched.value, pool[i]);
      if protocolPercentage > threshold {
        assert i == first;
        return Some(pool[i]);
      }
    }
    return Some(pool[0]);
  }

  /** What a selector can answer: a pinned protocol has no fallback. */
  datatype Kind = Static(pinned: Protocol) | Changing

  /** The answers of the selector on which one decision rests; other connections may refresh it in between. */
  datatype Reads = Reads(checked: Protocol, before: Option<Protocol>, fallback: Option<Protocol>, current: Protocol)

  predicate IsFallback(answer: Option<Protocol>) {
    exists p :: answer == FallbackOf(p)
  }

  predicate Possible(kind: Kind, answers: Reads) {
    match kind
    case Static(p) => answers == Reads(p, None, None, p)
    case Changing => IsFallback(answers.before) && IsFallback(answers.fallback)
  }

  // ---------- The selector that asks a remote ----------

  class RemoteProtocolSelector {
    var current: Protocol
    var refreshAfter: int
    const protocolPool: seq<Protocol>
    const switchThreshold: int
    const ttl: int

    ghost predicate Valid() {
      protocolPool != []
    }

    constructor (current: Protocol, protocolPool: seq<Protocol>, switchThreshold: int, now: int, ttl: int)
      requires protocolPool != []
      ensures Valid() && this.current == current && refreshAfter == now + ttl
      ensures this.protocolPool == protocolPool && this.ttl == ttl && this.switchThreshold == switchThreshold
    {
      this.current, this.refreshAfter := current, now + ttl;
      this.protocolPool, this.switchThreshold, this.ttl := protocolPool, switchThreshold, ttl;
    }

    /** The answer is refreshed only when its time to live has run out and the remote could be asked. */
    method Current(now: int, fetched: Option<Percents>, later: int) returns (p: Protocol)
      requires Valid()
      modifies this
      ensures p == current
      ensures if now < old(refreshAfter) || fetched.None?
              then current == old(current) && refreshAfter == old(refreshAfter)
              else current == Chosen(protocolPool, fetched.value, switchThreshold) && refreshAfter == later + ttl
    {
      if now < refreshAfter {
        return current;
      }
      var protocol := GetProtocol(protocolPool, fetched, switchThreshold);
      if protocol.None? {
        return current;
      }
      current := protocol.value;
      refreshAfter := later + ttl;
      p := current;
    }
  }
}
