/** Which address a request is counted under (internal/middleware/auth.go:131-171). */
module ClientAddress {
  import opened Options
  import opened Text

  /** The trusted CIDRs: how an address is parsed, and what each network contains. */
  datatype Trust<!Address> = Trust(parse: string -> Option<Address>, networks: seq<Address -> bool>)

  predicate Trusted<Address>(ip: string, trust: Trust<Address>) {
    trust.parse(ip).Some? && exists n :: 0 <= n < |trust.networks| && trust.networks[n](trust.parse(ip).value)
  }

  method IsTrustedProxy<Address>(ip: string, trust: Trust<Address>) returns (trusted: bool)
    ensures trusted == Trusted(ip, trust)
    ensures trust.parse(ip).None? ==> !trusted
    ensures trust.parse(ip).Some? ==>
              (trusted <==> exists n :: 0 <= n < |trust.networks| && trust.networks[n](trust.parse(ip).value))
  {
    var parsed := trust.parse(ip);
    if parsed.None? { return false; }
    for n := 0 to |trust.networks|
      invariant forall m :: 0 <= m < n ==> !trust.networks[m](parsed.value)
    {
      if trust.networks[n](parsed.value) { return true; }
    }
    return false;
  }

  /** An entry that can be the client: not blank, and not itself a trusted proxy. */
  predicate Eligible<Address>(entry: string, trust: Trust<Address>) {
    TrimSpace(entry) != "" && !Trusted(TrimSpace(entry), trust)
  }

  /** The rightmost eligible entry, trimmed. */
  function Rightmost<Address>(entries: seq<string>, trust: Trust<Address>): Option<string> {
    if entries == [] then None
    else
      var last := |entries| - 1;
      if Eligible(entries[last], trust) then Some(TrimSpace(entries[last])) else Rightmost(entries[..last], trust)
  }

  /** The client of a request from a peer; a missing header is the empty string. */
  function Client<Address>(header: string, peer: string, trust: Trust<Address>): string {
    if !Trusted(peer, trust) then peer
    else match Rightmost(Split(header, ','), trust)
      case Some(ip) => ip
      case None => peer
  }

  lemma BlankHeader<Address>(trust: Trust<Address>)
    ensures Rightmost(Split("", ','), trust) == None
  {
    hide Trusted;
    TrimmedStays("");
  }

  /** From the given entry on, all are blank or trusted proxies. */
  ghost predicate NoneFrom<Address>(entries: seq<string>, trust: Trust<Address>, from: nat) {
    forall j :: from <= j < |entries| ==> TrimSpace(entries[j]) == "" || Trusted(TrimSpace(entries[j]), trust)
  }

  lemma NoneFromMeans<Address>(entries: seq<string>, trust: Trust<Address>, from: nat, j: nat)
    requires NoneFrom(entries, trust, from) && from <= j < |entries|
    ensures !Eligible(entries[j], trust)
  {
    hide TrimSpace, Trusted;
  }

  /** Behind a trusted peer the client is the last entry that is neither blank nor a trusted proxy. */
  lemma ClientMeans<Address>(header: string, peer: string, trust: Trust<Address>, i: nat)
    requires Trusted(peer, trust) && i < |Split(header, ',')| && NoneFrom(Split(header, ','), trust, i + 1)
    requires var ip := TrimSpace(Split(header, ',')[i]); ip != "" && !Trusted(ip, trust)
    ensures Client(header, peer, trust) == TrimSpace(Split(header, ',')[i])
  {
    hide Split, TrimSpace, Trusted, NoneFrom;
    var entries := Split(header, ',');
    forall j | i < j < |entries| ensures !Eligible(entries[j], trust) { NoneFromMeans(entries, trust, i + 1, j); }
    RightmostMeans(entries, trust, i);
  }

  /** And the peer itself if there is none. */
  lemma PeerMeans<Address>(header: string, peer: string, trust: Trust<Address>)
    requires NoneFrom(Split(header, ','), trust, 0)
    ensures Client(header, peer, trust) == peer
  {
    hide Split, TrimSpace, Trusted, NoneFrom;
    var entries := Split(header, ',');
    forall j | 0 <= j < |entries| ensures !Eligible(entries[j], trust) { NoneFromMeans(entries, trust, 0, j); }
    NoneEligible(entries, trust);
  }

  lemma RightmostNext<Address>(entries: seq<string>, trust: Trust<Address>, i: nat)
    requires i < |entries|
    ensures Rightmost(entries[..i + 1], trust)
         == if Eligible(entries[i], trust) then Some(TrimSpace(entries[i])) else Rightmost(entries[..i], trust)
  {
    hide Eligible, TrimSpace;
    assert entries[..i + 1][..i] == entries[..i];
  }

  lemma NoneLeft<Address>(entries: seq<string>, trust: Trust<Address>)
    ensures Rightmost(entries[..0], trust) == None
  {
  }

  method ClientIP<Address>(header: string, peer: string, trust: Trust<Address>) returns (ip: string)
    ensures ip == Client(header, peer, trust)
    ensures !Trusted(peer, trust) ==> ip == peer
    ensures NoneFrom(Split(header, ','), trust, 0) ==> ip == peer
  {
    hide Split, TrimSpace, Trusted, NoneFrom, Rightmost;
    if NoneFrom(Split(header, ','), trust, 0) { PeerMeans(header, peer, trust); }
    var direct := IsTrustedProxy(peer, trust);
    if !direct { return peer; }
    if header == "" {
      BlankHeader(trust);
      return peer;
    }
    var entries := Split(header, ',');
    var i := |entries| - 1;
    assert entries[..i + 1] == entries;
    NoneLeft(entries, trust);
    while i >= 0
      invariant -1 <= i < |entries|
      invariant Rightmost(entries, trust) == Rightmost(entries[..i + 1], trust)
    {
      RightmostNext(entries, trust, i);
      ip := TrimSpace(entries[i]);
      var proxy := IsTrustedProxy(ip, trust);
      if ip != "" && !proxy { return ip; }
      i := i - 1;
    }
    return peer;
  }

  /** What the result means: the entry that is eligible with only ineligible ones after it, if there is one. */
  lemma {:induction false} RightmostMeans<Address>(entries: seq<string>, trust: Trust<Address>, i: nat)
    requires i < |entries| && Eligible(entries[i], trust)
    requires forall j :: i < j < |entries| ==> !Eligible(entries[j], trust)
    ensures Rightmost(entries, trust) == Some(TrimSpace(entries[i]))
  {
    hide Eligible;
    if i < |entries| - 1 {
      RightmostMeans(entries[..|entries| - 1], trust, i);
    }
  }

  lemma {:induction false} NoneEligible<Address>(entries: seq<string>, trust: Trust<Address>)
    requires forall j :: 0 <= j < |entries| ==> !Eligible(entries[j], trust)
    ensures Rightmost(entries, trust) == None
  {
    hide Eligible;
    if entries != [] {
      NoneEligible(entries[..|entries| - 1], trust);
    }
  }

  /** An address as a proxy writes it: no comma, no blanks around it, not empty. */
  predicate Written(ip: string) {
    ip != "" && Trimmed(ip) && ',' !in ip
  }

  /** A proxy passes a request on with its peer's address appended to the header. */
  predicate Forwards(header: string, peer: string, out: string) {
    out == header + ", " + peer || out == header + "," + peer || (header == "" && out == peer)
  }

  /** The header along a chain of proxies, each appending the peer it saw. */
  ghost predicate Chain(headers: seq<string>, peers: seq<string>) {
    && |headers| == |peers| + 1
    && forall i :: 0 <= i < |peers| ==> Written(peers[i]) && Forwards(headers[i], peers[i], headers[i + 1])
  }

  lemma {:induction false} RightmostAppend<Address>(entries: seq<string>, last: string, trust: Trust<Address>)
    ensures Rightmost(entries + [last], trust)
         == if Eligible(last, trust) then Some(TrimSpace(last)) else Rightmost(entries, trust)
  {
    assert (entries + [last])[..|entries|] == entries;
  }

  /** One hop decides when the peer it saw is untrusted, and leaves the decision to what came before when not. */
  lemma HopDecides<Address>(header: string, peer: string, out: string, trust: Trust<Address>)
    requires Written(peer) && Forwards(header, peer, out)
    ensures Rightmost(Split(out, ','), trust)
         == if Trusted(peer, trust) then Rightmost(Split(header, ','), trust) else Some(peer)
  {
    hide Split, TrimSpace, Rightmost;
    TrimmedStays(peer);
    TrimLeadingSpace(peer);
    if header == "" && out == peer {
      SplitWhole(peer, ',');
      SplitWhole("", ',');
      TrimmedStays("");
      assert [] + [peer] == [peer] && [] + [""] == [""];
      RightmostAppend([], peer, trust);
      RightmostAppend([], "", trust);
    } else {
      var last := if out == header + "," + peer then peer else " " + peer;
      assert out == header + "," + last;
      SplitConcat(header, last, ',');
      SplitWhole(last, ',');
      RightmostAppend(Split(header, ','), last, trust);
    }
  }

  /** Behind a chain of proxies the client is the last peer that is untrusted; what the header held before that
      peer was appended, forged entries included, has no influence. */
  lemma {:induction false} ChainFindsClient<Address>(headers: seq<string>, peers: seq<string>, trust: Trust<Address>, k: nat, peer: string)
    requires Chain(headers, peers) && Trusted(peer, trust)
    requires k < |peers| && !Trusted(peers[k], trust)
    requires forall j :: k < j < |peers| ==> Trusted(peers[j], trust)
    ensures Client(headers[|peers|], peer, trust) == peers[k]
  {
    hide Trusted, Split, Rightmost, Written, Forwards;
    var n := |peers| - 1;
    HopDecides(headers[n], peers[n], headers[n + 1], trust);
    if k < n {
      ChainFindsClient(headers[..n + 1], peers[..n], trust, k, peer);
    }
  }

  /** With every hop trusted the answer is what the client's own header says, so a forged address is believed. */
  lemma {:induction false} TrustedChainKeepsHeader<Address>(headers: seq<string>, peers: seq<string>, trust: Trust<Address>, peer: string)
    requires Chain(headers, peers)
    requires forall j :: 0 <= j < |peers| ==> Trusted(peers[j], trust)
    ensures Client(headers[|peers|], peer, trust) == Client(headers[0], peer, trust)
    ensures Trusted(peer, trust) && Written(headers[0]) && !Trusted(headers[0], trust)
            ==> Client(headers[|peers|], peer, trust) == headers[0]
  {
    hide Trusted, Split, Rightmost, Forwards, TrimSpace, Trimmed;
    if Written(headers[0]) {
      SplitWhole(headers[0], ',');
      TrimmedStays(headers[0]);
      assert [] + [headers[0]] == [headers[0]];
      RightmostAppend([], headers[0], trust);
    }
    hide Written;
    if peers != [] {
      var n := |peers| - 1;
      HopDecides(headers[n], peers[n], headers[n + 1], trust);
      TrustedChainKeepsHeader(headers[..n + 1], peers[..n], trust, peer);
    }
  }
}
