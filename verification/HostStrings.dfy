/** Host names: how lists of them travel between operator and scaler, and how the
    interceptor turns a `Host` header and a caller's address into a routing key. */
module HostStrings {
  import opened Basics

  // ---------- searching, splitting and joining ----------

  function IndexOf(s: string, c: char): (i: int)
    ensures i == -1 <==> c !in s
    ensures i != -1 ==> 0 <= i < |s| && s[i] == c && c !in s[..i]
  {
    if s == "" then -1
    else if s[0] == c then 0
    else
      var i := IndexOf(s[1..], c);
      assert i != -1 ==> s[..i + 1] == [s[0]] + s[1..][..i];
      assert s == [s[0]] + s[1..];
      if i == -1 then -1 else i + 1
  }

  function LastIndexOf(s: string, c: char): (i: int)
    ensures i == -1 <==> c !in s
    ensures i != -1 ==> 0 <= i < |s| && s[i] == c && c !in s[i + 1..]
  {
    if s == "" then -1
    else if s[|s| - 1] == c then |s| - 1
    else
      var front := s[..|s| - 1];
      var i := LastIndexOf(front, c);
      assert s == front + [s[|s| - 1]];
      assert i != -1 ==> s[i + 1..] == front[i + 1..] + [s[|s| - 1]];
      i
  }

  function Split(s: string, sep: char): (parts: seq<string>)
    ensures parts != [] && forall p | p in parts :: sep !in p
    decreases |s|
  {
    var i := IndexOf(s, sep);
    if i == -1 then [s] else [s[..i]] + Split(s[i + 1..], sep)
  }

  function Join(parts: seq<string>, sep: char): string {
    if parts == [] then ""
    else if |parts| == 1 then parts[0]
    else parts[0] + [sep] + Join(parts[1..], sep)
  }

  lemma JoinOfCons(head: string, parts: seq<string>, sep: char)
    requires parts != []
    ensures Join([head] + parts, sep) == head + [sep] + Join(parts, sep)
  {
    assert ([head] + parts)[1..] == parts;
  }

  lemma CutAt(s: string, i: nat)
    requires i < |s|
    ensures s == s[..i] + [s[i]] + s[i + 1..]
  {
  }

  /** Joining what was split gives back every string. */
  lemma {:induction false} JoinOfSplit(s: string, sep: char)
    ensures Join(Split(s, sep), sep) == s
    decreases |s|
  {
    var i := IndexOf(s, sep);
    if i != -1 {
      var head, tail := s[..i], s[i + 1..];
      JoinOfSplit(tail, sep);
      CutAt(s, i);
      var parts := Split(tail, sep);
      JoinOfCons(head, parts, sep);
    }
  }

  lemma {:induction false} FirstSeparator(head: string, sep: char, tail: string)
    requires sep !in head
    ensures IndexOf(head + [sep] + tail, sep) == |head|
  {
    var s := head + [sep] + tail;
    if head != "" {
      assert s[1..] == head[1..] + [sep] + tail;
      FirstSeparator(head[1..], sep, tail);
    }
  }

  lemma SplitAtFirst(head: string, sep: char, tail: string)
    requires sep !in head
    ensures Split(head + [sep] + tail, sep) == [head] + Split(tail, sep)
  {
    var s := head + [sep] + tail;
    FirstSeparator(head, sep, tail);
    assert s[..|head|] == head && s[|head| + 1..] == tail;
  }

  lemma {:induction false} SplitOfJoin(parts: seq<string>, sep: char)
    requires parts != [] && forall p | p in parts :: sep !in p
    ensures Split(Join(parts, sep), sep) == parts
  {
    if |parts| == 1 {
      assert parts == [parts[0]];
    } else {
      SplitOfJoin(parts[1..], sep);
      SplitAtFirst(parts[0], sep, Join(parts[1..], sep));
    }
  }

  /** Splitting what was joined gives back a list if and only if the list is non-empty and no
      element holds the separator. */
  lemma SplitOfJoinIff(parts: seq<string>, sep: char)
    ensures Split(Join(parts, sep), sep) == parts <==> parts != [] && forall p | p in parts :: sep !in p
  {
    if parts != [] && forall p | p in parts :: sep !in p {
      SplitOfJoin(parts, sep);
    }
  }

  const HOSTS_KEY := "hosts"

  /** The metadata that the operator puts on a ScaledObject for its host list. */
  function TriggerMetadata(scalerAddress: string, hosts: seq<Host>): map<string, string> {
    map["scalerAddress" := scalerAddress, HOSTS_KEY := Join(hosts, ',')]
  }

  /** `getHostsFromScaledObjectRef`: the host list that the scaler reads back. */
  function HostsFromMetadata(metadata: map<string, string>): Result<seq<Host>> {
    if HOSTS_KEY !in metadata then Err("no 'hosts' field in the scaler metadata field")
    else Ok(Split(metadata[HOSTS_KEY], ','))
  }

  /** The host list survives the way from operator to scaler exactly when it is non-empty and
      free of commas. */
  lemma HostListRoundTripIff(scalerAddress: string, hosts: seq<Host>)
    ensures TriggerMetadata(scalerAddress, hosts).Keys == {"scalerAddress", "hosts"}
    ensures TriggerMetadata(scalerAddress, hosts)["scalerAddress"] == scalerAddress
    ensures HostsFromMetadata(TriggerMetadata(scalerAddress, hosts)) == Ok(hosts)
            <==> hosts != [] && forall h | h in hosts :: ',' !in h
  {
    SplitOfJoinIff(hosts, ',');
  }

  /** The scaler reads a host list from any metadata that has the field, and from no other; what it
      reads is the field cut at its commas. */
  lemma HostsNeedTheirField(metadata: map<string, string>)
    ensures HostsFromMetadata(metadata).Ok? <==> "hosts" in metadata
    ensures "hosts" in metadata ==>
              && Join(HostsFromMetadata(metadata).value, ',') == metadata["hosts"]
              && forall h | h in HostsFromMetadata(metadata).value :: ',' !in h
  {
    if "hosts" in metadata {
      JoinOfSplit(metadata["hosts"], ',');
    }
  }

  // ---------- the routing key of a request ----------

  function StripPort(s: string): string {
    var i := IndexOf(s, ':');
    if i == -1 then s else s[..i]
  }

  function ExtractServiceInfo(serviceURL: string): (string, string) {
    var parts := Split(serviceURL, '.');
    if |parts| >= 2 then (parts[0], parts[1]) else (parts[0], "")
  }

  function ExtractPodInfo(podURL: string): (string, string, string) {
    var parts := Split(podURL, '.');
    if |parts| >= 3 then (parts[0], parts[1], parts[2])
    else if |parts| == 2 then (parts[0], parts[1], "")
    else ("", "", "")
  }

  type ReverseLookup = string -> Result<seq<string>>

  /** The caller's namespace, where the reverse lookup gives one. */
  function CallerNamespace(remoteAddr: string, lookup: ReverseLookup): string {
    var names := lookup(StripPort(remoteAddr));
    if names.Ok? && names.value != [] then ExtractPodInfo(names.value[0]).2 else ""
  }

  /** `getHost`. The first name the reverse lookup finds for the caller gives its namespace; there is
      no key exactly when an input is empty or that namespace cannot be told. */
  function GetHost(remoteAddr: string, host: string, lookup: ReverseLookup): (key: Result<Host>)
    ensures key.Err? <==> remoteAddr == "" || host == "" || CallerNamespace(remoteAddr, lookup) == ""
  {
    if remoteAddr == "" then Err("remote address not found")
    else if host == "" then Err("host not found")
    else
      match lookup(StripPort(remoteAddr))
      case Err(_) => Err("error looking up address")
      case Ok(names) =>
        if names == [] then Err("no names found for address")
        else
          var remoteNs := ExtractPodInfo(names[0]).2;
          if remoteNs == "" then Err("namespace not found")
          else
            var (destService, destNs) := ExtractServiceInfo(StripPort(host));
            if "dp-" <= remoteNs || destNs == "" then Ok(destService + "." + remoteNs)
            else Ok(destService + "." + destNs)
  }

  ghost predicate NamesWithoutColon(lookup: ReverseLookup) {
    forall a {:trigger lookup(a)} :: lookup(a).Ok? ==> forall n | n in lookup(a).value :: ':' !in n
  }

  lemma {:induction false} PiecesStayClean(s: string, sep: char, c: char)
    requires c !in s
    ensures forall p | p in Split(s, sep) :: c !in p
    decreases |s|
  {
    var i := IndexOf(s, sep);
    if i != -1 {
      PiecesStayClean(s[i + 1..], sep, c);
    }
  }

  /** The key is `service.namespace`: one dot, no colon, a namespace that is never empty, and
      for a `dp-` caller always the caller's own. */
  lemma KeyShape(remoteAddr: string, host: string, lookup: ReverseLookup) returns (service: string, ns: string)
    requires NamesWithoutColon(lookup) && GetHost(remoteAddr, host, lookup).Ok?
    ensures GetHost(remoteAddr, host, lookup) == Ok(service + "." + ns)
    ensures '.' !in service && '.' !in ns && ':' !in service && ':' !in ns && ns != ""
    ensures "dp-" <= CallerNamespace(remoteAddr, lookup) ==> ns == CallerNamespace(remoteAddr, lookup)
  {
    var name := lookup(StripPort(remoteAddr)).value[0];
    PiecesStayClean(name, '.', ':');
    PiecesStayClean(StripPort(host), '.', ':');
    var remoteNs := ExtractPodInfo(name).2;
    var info := ExtractServiceInfo(StripPort(host));
    service := info.0;
    ns := if "dp-" <= remoteNs || info.1 == "" then remoteNs else info.1;
  }

  lemma ServiceInfoOfKey(service: string, ns: string)
    requires '.' !in service && '.' !in ns
    ensures ExtractServiceInfo(service + "." + ns) == (service, ns)
  {
    SplitAtFirst(service, '.', ns);
    assert service + "." + ns == service + ['.'] + ns;
  }

  // ---------- the key, from the text of header and name ----------

  lemma {:induction false} StripPortOfConcat(a: string, b: string)
    requires ':' !in a
    ensures StripPort(a + b) == a + StripPort(b)
  {
    if ':' in b {
      var i := IndexOf(b, ':');
      assert b == b[..i] + [':'] + b[i + 1..];
      assert a + b == (a + b[..i]) + [':'] + b[i + 1..];
      FirstSeparator(a + b[..i], ':', b[i + 1..]);
    } else {
      assert ':' !in a + b;
    }
  }

  lemma Regroup(a: string, b: string, c: string)
    ensures a + "." + b + c == a + ['.'] + (b + c)
  {
  }

  /** A piece, alone or followed by a dot, is the first one. */
  lemma FirstPiece(piece: string, tail: string)
    requires '.' !in piece && (tail == "" || tail[0] == '.')
    ensures Split(piece + tail, '.')[0] == piece
  {
    if tail == "" {
      assert piece + tail == piece;
    } else {
      assert piece + tail == piece + ['.'] + tail[1..];
      SplitAtFirst(piece, '.', tail[1..]);
    }
  }

  /** The first two pieces of a text that begins with them. */
  lemma FirstPieces(a: string, b: string, tail: string)
    requires '.' !in a && '.' !in b && (tail == "" || tail[0] == '.')
    ensures var parts := Split(a + "." + b + tail, '.');
            && |parts| >= 2 && parts[0] == a && parts[1] == b
            && parts[1..] == Split(b + tail, '.')
  {
    Regroup(a, b, tail);
    SplitAtFirst(a, '.', b + tail);
    FirstPiece(b, tail);
  }

  /** The namespace of a caller is the third label of its name. */
  lemma NamespaceIsThirdLabel(pod: string, deployment: string, ns: string, tail: string)
    requires '.' !in pod && '.' !in deployment && '.' !in ns && (tail == "" || tail[0] == '.')
    ensures ExtractPodInfo(pod + "." + (deployment + "." + ns + tail)) == (pod, deployment, ns)
  {
    var rest := deployment + "." + ns + tail;
    FirstPieces(deployment, ns, tail);
    assert pod + "." + rest == pod + ['.'] + rest;
    SplitAtFirst(pod, '.', rest);
  }

  lemma PortStripped(s: string, port: string)
    requires ':' !in s
    ensures StripPort(s + ":" + port) == s == StripPort(s)
  {
    var whole := s + ":" + port;
    FirstSeparator(s, ':', port);
    assert whole == s + [':'] + port && whole[..|s|] == s;
  }

  /** A name of one or two labels gives no namespace. */
  lemma ShortNameHasNoNamespace(pod: string, deployment: string)
    requires '.' !in pod && '.' !in deployment
    ensures ExtractPodInfo(pod).2 == "" && ExtractPodInfo(pod + "." + deployment).2 == ""
  {
    assert pod + "." + deployment == pod + ['.'] + deployment;
    SplitAtFirst(pod, '.', deployment);
  }

  /** The caller is looked up by its address without the port, and its first name decides. */
  lemma CallerIsFirstName(ip: string, port: string, pod: string, deployment: string, ns: string, tail: string,
                          others: seq<string>, lookup: ReverseLookup)
    requires ':' !in ip && '.' !in pod && '.' !in deployment && '.' !in ns && (tail == "" || tail[0] == '.')
    requires lookup(ip) == Ok([pod + "." + (deployment + "." + ns + tail)] + others)
    ensures CallerNamespace(ip + ":" + port, lookup) == ns
  {
    PortStripped(ip, port);
    NamespaceIsThirdLabel(pod, deployment, ns, tail);
  }

  /** A header of at least two labels, with anything after them: the key is the first label with
      the second, or with the caller's namespace if the caller is a `dp-` one or the second label
      is empty. */
  lemma KeyOfQualifiedHeader(remoteAddr: string, service: string, ns: string, tail: string, lookup: ReverseLookup)
    requires remoteAddr != "" && CallerNamespace(remoteAddr, lookup) != ""
    requires '.' !in service && ':' !in service && '.' !in ns && ':' !in ns
    requires tail == "" || tail[0] == '.' || tail[0] == ':'
    ensures var caller := CallerNamespace(remoteAddr, lookup);
            GetHost(remoteAddr, service + "." + ns + tail, lookup) ==
              Ok(service + "." + if "dp-" <= caller || ns == "" then caller else ns)
  {
    QualifiedServiceInfo(service, ns, tail);
    KeyFromInfo(remoteAddr, service + "." + ns + tail, service, ns, lookup);
  }

  lemma QualifiedServiceInfo(service: string, ns: string, tail: string)
    requires '.' !in service && ':' !in service && '.' !in ns && ':' !in ns
    requires tail == "" || tail[0] == '.' || tail[0] == ':'
    ensures ExtractServiceInfo(StripPort(service + "." + ns + tail)) == (service, ns)
  {
    StripPortOfConcat(service + "." + ns, tail);
    FirstPieces(service, ns, StripPort(tail));
  }

  lemma KeyFromInfo(remoteAddr: string, header: string, service: string, ns: string, lookup: ReverseLookup)
    requires remoteAddr != "" && header != "" && ExtractServiceInfo(StripPort(header)) == (service, ns)
    requires CallerNamespace(remoteAddr, lookup) != ""
    ensures var caller := CallerNamespace(remoteAddr, lookup);
            GetHost(remoteAddr, header, lookup) ==
              Ok(service + "." + if "dp-" <= caller || ns == "" then caller else ns)
  {
  }

  /** A header of one label, with or without a port: the key has the caller's namespace. */
  lemma KeyOfBareHeader(remoteAddr: string, service: string, tail: string, lookup: ReverseLookup)
    requires remoteAddr != "" && CallerNamespace(remoteAddr, lookup) != ""
    requires '.' !in service && ':' !in service && service + tail != "" && (tail == "" || tail[0] == ':')
    ensures GetHost(remoteAddr, service + tail, lookup) == Ok(service + "." + CallerNamespace(remoteAddr, lookup))
  {
    StripPortOfConcat(service, tail);
    assert StripPort(tail) == "";
    assert service + "" == service;
  }

  /** The key is a fixed point: asking again with the key as the header changes nothing. */
  lemma KeyIsIdempotent(remoteAddr: string, host: string, lookup: ReverseLookup)
    requires NamesWithoutColon(lookup) && GetHost(remoteAddr, host, lookup).Ok?
    ensures GetHost(remoteAddr, GetHost(remoteAddr, host, lookup).value, lookup) == GetHost(remoteAddr, host, lookup)
  {
    var service, ns := KeyShape(remoteAddr, host, lookup);
    var key := service + "." + ns;
    assert ':' !in key;
    ServiceInfoOfKey(service, ns);
  }

  /** A port in the header never changes the key. */
  lemma PortIsIgnored(remoteAddr: string, host: string, port: string, lookup: ReverseLookup)
    requires host != "" && ':' !in host
    ensures GetHost(remoteAddr, host + ":" + port, lookup) == GetHost(remoteAddr, host, lookup)
  {
    PortStripped(host, port);
  }
}
