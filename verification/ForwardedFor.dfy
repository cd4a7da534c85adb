// The client behind a chain of proxies, as the `X-Forwarded-For` header tells it.

module ForwardedFor {
  import opened Wrappers
  import opened Bytes

  const COMMA: Byte := 0x2C

  const V4_SIZE: int := 0x1_0000_0000
  const V6_SIZE: int := V4_SIZE * V4_SIZE * V4_SIZE * V4_SIZE
  /** `::ffff:0:0`, the first of the IPv6 addresses that stand for IPv4 ones. */
  const MAPPED: int := 0xFFFF * V4_SIZE
  /** The addresses of one /64. */
  const NETWORK_SIZE: int := V4_SIZE * V4_SIZE

  predicate IsMapped(a: int) { MAPPED <= a < MAPPED + V4_SIZE }

  type Addr4 = a: int | 0 <= a < V4_SIZE
  type Addr6 = a: int | 0 <= a < V6_SIZE

  datatype Ip = V4(a4: Addr4) | V6(a6: Addr6)
  {
    /** An IPv6 address that stands for an IPv4 one becomes that one. */
    function ToCanonical(): (ip: Ip)
      ensures ip.V6? ==> ip == this && !IsMapped(ip.a6)
    {
      if V6? && IsMapped(a6) then V4(a6 - MAPPED) else this
    }

    /** The rate-limit key: an IPv6 client counts by its /64. */
    function PerNetwork(): Ip {
      if V6? then
        var key := a6 - a6 % NETWORK_SIZE;
        V6(key)
      else this
    }
  }

  /** `2^bits`. */
  function Pow2(bits: nat): (p: int)
    ensures p >= 1
  {
    if bits == 0 then 1 else 2 * Pow2(bits - 1)
  }

  datatype Net = Net4(base4: Addr4, prefix4: nat) | Net6(base6: Addr6, prefix6: nat)
  {
    predicate Contains(ip: Ip) {
      match this
      case Net4(base, prefix) =>
        ip.V4? && prefix <= 32 && ip.a4 / Pow2(32 - prefix) == base / Pow2(32 - prefix)
      case Net6(base, prefix) =>
        ip.V6? && prefix <= 128 && ip.a6 / Pow2(128 - prefix) == base / Pow2(128 - prefix)
    }

    /** The net as the services load it: one of IPv4-mapped addresses becomes the IPv4 net it stands for. */
    function Loaded(): Net {
      if Net6? && 96 <= prefix6 <= 128 && IsMapped(base6) then Net4(base6 - MAPPED, prefix6 - 96) else this
    }

    /** A wide IPv6 net with the IPv4-mapped addresses somewhere inside. */
    predicate Surrounds() {
      Net6? && prefix6 < 96 && Contains(V6(MAPPED))
    }
  }

  /** Reads one entry, blanks and a port included; what it makes of the bytes is its own business. */
  type HopParser = seq<Byte> -> Option<Ip>

  function LoadedNets(nets: seq<Net>): seq<Net> {
    seq(|nets|, i requires 0 <= i < |nets| => nets[i].Loaded())
  }

  predicate Trusted(nets: seq<Net>, ip: Ip) {
    exists i :: 0 <= i < |nets| && nets[i].Contains(ip)
  }

  /** Which addresses are proxies whose word is taken; the walk is the same for any such choice. */
  type Trust = Ip -> bool

  function TrustIn(nets: seq<Net>): Trust {
    ip => Trusted(nets, ip)
  }

  /** The address `k` hops back: the peer, then what the entries say, read right to left. */
  function Hop(peer: Ip, entries: seq<seq<Byte>>, parse: HopParser, k: nat): Option<Ip>
    requires k <= |entries|
  {
    if k == 0 then Some(peer.ToCanonical())
    else
      var ip := parse(entries[|entries| - k]);
      if ip.None? then None else Some(ip.value.ToCanonical())
  }

  /** The walk stops `k` hops back: everything nearer was trusted, and it could not or may not go on. */
  predicate StopsAt(peer: Ip, entries: seq<seq<Byte>>, trust: Trust, parse: HopParser, k: nat) {
    && k <= |entries|
    && Hop(peer, entries, parse, k).Some?
    && (forall j :: 0 <= j < k ==>
          Hop(peer, entries, parse, j).Some? && trust(Hop(peer, entries, parse, j).value))
    && (k == |entries|
        || !trust(Hop(peer, entries, parse, k).value)
        || Hop(peer, entries, parse, k + 1).None?)
  }

  /** The walk stopped for good `k` hops back: more entries on the left would not be looked at. */
  predicate StopsShort(peer: Ip, entries: seq<seq<Byte>>, trust: Trust, parse: HopParser, k: nat) {
    && StopsAt(peer, entries, trust, parse, k)
    && (!trust(Hop(peer, entries, parse, k).value) || k < |entries|)
  }

  function Client(peer: Ip, entries: seq<seq<Byte>>, trust: Trust, parse: HopParser): Ip
    decreases |entries|
  {
    var client := peer.ToCanonical();
    if entries == [] || !trust(client) then client
    else
      match parse(entries[|entries| - 1])
      case None => client
      case Some(ip) => Client(ip, entries[..|entries| - 1], trust, parse)
  }

  /** Follows the chain of proxies back from the peer until it comes to one whose word does not count. */
  method ClientIp(peer: Ip, entries: seq<seq<Byte>>, nets: seq<Net>, parse: HopParser) returns (client: Ip)
    ensures client == Client(peer, entries, TrustIn(nets), parse)
    ensures exists k :: StopsAt(peer, entries, TrustIn(nets), parse, k) && Hop(peer, entries, parse, k) == Some(client)
  {
    client := peer.ToCanonical();
    var i := |entries|;
    assert entries[..i] == entries;
    while i > 0
      invariant 0 <= i <= |entries| && client == client.ToCanonical()
      invariant Client(peer, entries, TrustIn(nets), parse) == Client(client, entries[..i], TrustIn(nets), parse)
    {
      if !Trusted(nets, client) {
        break;
      }
      i := i - 1;
      assert entries[..i + 1][..i] == entries[..i];
      var hop := parse(entries[i]);
      match hop {
        case Some(ip) => client := ip.ToCanonical();
        case None => break;
      }
    }
    ghost var k := StopExists(peer, entries, TrustIn(nets), parse);
    StopDecides(peer, entries, TrustIn(nets), parse, k);
  }

  // ---- Where the walk stops ----

  lemma OneHopOn(peer: Ip, entries: seq<seq<Byte>>, trust: Trust, parse: HopParser, k: nat)
    requires entries != [] && trust(peer.ToCanonical()) && parse(entries[|entries| - 1]).Some?
    requires k < |entries|
    ensures var next, rest := parse(entries[|entries| - 1]).value, entries[..|entries| - 1];
            && Hop(peer, entries, parse, k + 1) == Hop(next, rest, parse, k)
            && (StopsAt(peer, entries, trust, parse, k + 1) <==> StopsAt(next, rest, trust, parse, k))
  {
    var next, rest := parse(entries[|entries| - 1]).value, entries[..|entries| - 1];
    assert Hop(peer, entries, parse, 0) == Some(peer.ToCanonical());
    assert forall j :: 0 <= j <= |rest| ==> Hop(peer, entries, parse, j + 1) == Hop(next, rest, parse, j);
    if StopsAt(peer, entries, trust, parse, k + 1) {
      forall j | 0 <= j < k ensures Hop(next, rest, parse, j).Some? && trust(Hop(next, rest, parse, j).value) {
        assert Hop(peer, entries, parse, j + 1).Some?;
      }
    }
    if StopsAt(next, rest, trust, parse, k) {
      forall j | 0 <= j < k + 1
        ensures Hop(peer, entries, parse, j).Some? && trust(Hop(peer, entries, parse, j).value)
      {
        if j > 0 {
          assert Hop(next, rest, parse, j - 1).Some?;
        }
      }
    }
  }

  lemma {:induction false} StopExists(peer: Ip, entries: seq<seq<Byte>>, trust: Trust, parse: HopParser)
    returns (k: nat)
    ensures StopsAt(peer, entries, trust, parse, k)
    decreases |entries|
  {
    if entries == [] || !trust(peer.ToCanonical()) || parse(entries[|entries| - 1]).None? {
      k := 0;
    } else {
      k := StopExists(parse(entries[|entries| - 1]).value, entries[..|entries| - 1], trust, parse);
      OneHopOn(peer, entries, trust, parse, k);
      k := k + 1;
    }
  }

  /** The client is the address the walk stops at. */
  lemma {:induction false} StopDecides(peer: Ip, entries: seq<seq<Byte>>, trust: Trust, parse: HopParser, k: nat)
    requires StopsAt(peer, entries, trust, parse, k)
    ensures Hop(peer, entries, parse, k) == Some(Client(peer, entries, trust, parse))
    decreases k
  {
    if k > 0 {
      assert Hop(peer, entries, parse, 0).Some? && trust(Hop(peer, entries, parse, 0).value);
      if k > 1 {
        assert Hop(peer, entries, parse, 1).Some?;
      }
      OneHopOn(peer, entries, trust, parse, k - 1);
      StopDecides(parse(entries[|entries| - 1]).value, entries[..|entries| - 1], trust, parse, k - 1);
    }
  }

  /** There is one place to stop. */
  lemma StopIsUnique(peer: Ip, entries: seq<seq<Byte>>, trust: Trust, parse: HopParser, j: nat, k: nat)
    requires StopsAt(peer, entries, trust, parse, j) && StopsAt(peer, entries, trust, parse, k)
    ensures j == k
  {
    if j < k {
      StopsAreOrdered(peer, entries, trust, parse, j, k);
    } else if k < j {
      StopsAreOrdered(peer, entries, trust, parse, k, j);
    }
  }

  lemma StopsAreOrdered(peer: Ip, entries: seq<seq<Byte>>, trust: Trust, parse: HopParser, j: nat, k: nat)
    requires StopsAt(peer, entries, trust, parse, j) && k <= |entries| && j < k
    ensures !StopsAt(peer, entries, trust, parse, k)
  {
    assert !trust(Hop(peer, entries, parse, j).value) || Hop(peer, entries, parse, j + 1).None?;
  }

  // ---- What a client can and cannot do to it ----

  /** Entries left of where the walk stopped make no difference, whoever wrote them. */
  lemma LeftOfTheStopIsIgnored(front: seq<seq<Byte>>, peer: Ip, back: seq<seq<Byte>>, trust: Trust, parse: HopParser, k: nat)
    requires StopsShort(peer, back, trust, parse, k)
    ensures StopsShort(peer, front + back, trust, parse, k)
    ensures Client(peer, front + back, trust, parse) == Client(peer, back, trust, parse)
  {
    var all := front + back;
    assert forall j :: 0 <= j <= |back| ==> Hop(peer, all, parse, j) == Hop(peer, back, parse, j);
    forall j | 0 <= j < k ensures Hop(peer, all, parse, j).Some? && trust(Hop(peer, all, parse, j).value) {
      assert Hop(peer, back, parse, j).Some?;
    }
    StopDecides(peer, all, trust, parse, k);
    StopDecides(peer, back, trust, parse, k);
  }

  /** Only a walk that read every entry and still trusts the last can be taken further by more entries. */
  lemma MoreEntriesMatterOnlyToAnOpenWalk(peer: Ip, back: seq<seq<Byte>>, trust: Trust, parse: HopParser, k: nat)
    requires StopsAt(peer, back, trust, parse, k) && !StopsShort(peer, back, trust, parse, k)
    ensures k == |back|
    ensures forall front: seq<seq<Byte>> ::
      Client(peer, front + back, trust, parse) == Client(Hop(peer, back, parse, k).value, front, trust, parse)
  {
    forall front: seq<seq<Byte>>
      ensures Client(peer, front + back, trust, parse) == Client(Hop(peer, back, parse, k).value, front, trust, parse)
    {
      OpenWalk(front, peer, back, trust, parse);
    }
  }

  lemma {:induction false} OpenWalk(front: seq<seq<Byte>>, peer: Ip, back: seq<seq<Byte>>, trust: Trust, parse: HopParser)
    requires StopsAt(peer, back, trust, parse, |back|)
    requires trust(Hop(peer, back, parse, |back|).value)
    ensures Client(peer, front + back, trust, parse) == Client(Hop(peer, back, parse, |back|).value, front, trust, parse)
    decreases |back|
  {
    if back == [] {
      assert front + back == front;
    } else {
      var n := |back| - 1;
      assert Hop(peer, back, parse, 0).Some? && trust(Hop(peer, back, parse, 0).value);
      if n > 0 {
        assert Hop(peer, back, parse, 1).Some?;
      }
      OneHopOn(peer, back, trust, parse, n);
      OpenWalk(front, parse(back[n]).value, back[..n], trust, parse);
      assert (front + back)[..|front + back| - 1] == front + back[..n];
    }
  }

  /** Whatever a client sends, behind trusted proxies that append what they see it is known by its own address. */
  lemma SpoofingIsUseless(sent: seq<seq<Byte>>, appended: seq<seq<Byte>>, peer: Ip, trust: Trust, parse: HopParser)
    requires forall i :: 0 <= i < |appended| ==> parse(appended[i]).Some?
    requires forall i :: 1 <= i < |appended| ==> trust(parse(appended[i]).value.ToCanonical())
    requires appended != [] ==>
      trust(peer.ToCanonical()) && !trust(parse(appended[0]).value.ToCanonical())
    requires appended == [] ==> !trust(peer.ToCanonical())
    ensures Client(peer, sent + appended, trust, parse)
         == if appended == [] then peer.ToCanonical() else parse(appended[0]).value.ToCanonical()
  {
    var k := |appended|;
    assert StopsShort(peer, appended, trust, parse, k);
    LeftOfTheStopIsIgnored(sent, peer, appended, trust, parse, k);
    StopDecides(peer, appended, trust, parse, k);
  }

  // ---- Header lines ----

  function Split(line: seq<Byte>): (entries: seq<seq<Byte>>)
    ensures entries != []
    ensures forall i :: 0 <= i < |entries| ==> COMMA !in entries[i]
  {
    if line == [] then [[]]
    else
      var rest := Split(line[1..]);
      if line[0] == COMMA then [[]] + rest
      else [[line[0]] + rest[0]] + rest[1..]
  }

  /** The entries of several `X-Forwarded-For` lines, in order. */
  function Entries(lines: seq<seq<Byte>>): seq<seq<Byte>> {
    if lines == [] then [] else Split(lines[0]) + Entries(lines[1..])
  }

  function Joined(lines: seq<seq<Byte>>): seq<Byte>
    requires lines != []
  {
    if |lines| == 1 then lines[0] else lines[0] + [COMMA] + Joined(lines[1..])
  }

  lemma {:induction false} SplitAtComma(left: seq<Byte>, right: seq<Byte>)
    ensures Split(left + [COMMA] + right) == Split(left) + Split(right)
  {
    if left == [] {
      assert (left + [COMMA] + right)[1..] == right;
    } else {
      SplitAtComma(left[1..], right);
      SplitCons(left[0], left[1..]);
      SplitCons(left[0], left[1..] + [COMMA] + right);
      assert [left[0]] + left[1..] == left;
      assert [left[0]] + (left[1..] + [COMMA] + right) == left + [COMMA] + right;
      ConsIntoFirst([left[0]], Split(left[1..]), Split(right));
    }
  }

  lemma ConsIntoFirst<T>(head: seq<T>, left: seq<seq<T>>, right: seq<seq<T>>)
    requires left != []
    ensures [head + (left + right)[0]] + (left + right)[1..] == ([head + left[0]] + left[1..]) + right
    ensures [[]] + (left + right) == ([[]] + left) + right
  {
  }

  lemma SplitCons(b: Byte, line: seq<Byte>)
    ensures Split([b] + line) ==
            if b == COMMA then [[]] + Split(line) else [[b] + Split(line)[0]] + Split(line)[1..]
  {
    assert ([b] + line)[1..] == line;
  }

  /** Splitting loses nothing: the entries with commas between them are the line. */
  lemma {:induction false} SplitLosesNothing(line: seq<Byte>)
    ensures Joined(Split(line)) == line
  {
    if line != [] {
      SplitLosesNothing(line[1..]);
      var rest := Split(line[1..]);
      assert line == [line[0]] + line[1..];
      if line[0] == COMMA {
        assert Split(line)[1..] == rest;
      } else {
        assert Split(line)[1..] == rest[1..];
        assert |rest| == 1 ==> rest == [rest[0]];
      }
    }
  }

  lemma EntriesOfOne(line: seq<Byte>)
    ensures Entries([line]) == Split(line)
  {
    assert [line][1..] == [] && Split(line) + [] == Split(line);
  }

  /** Several header lines read as one line with commas between them. */
  lemma {:induction false} LinesReadAsOne(lines: seq<seq<Byte>>)
    requires lines != []
    ensures Entries(lines) == Split(Joined(lines))
  {
    if |lines| == 1 {
      EntriesOfOne(lines[0]);
      assert lines == [lines[0]];
    } else {
      LinesReadAsOne(lines[1..]);
      SplitAtComma(lines[0], Joined(lines[1..]));
    }
  }

  /** It makes no difference whether a proxy extends the last line or sends another. */
  lemma AppendingToALineOrAddingOne(lines: seq<seq<Byte>>, line: seq<Byte>, entry: seq<Byte>)
    ensures Entries(lines + [line + [COMMA] + entry]) == Entries(lines + [line, entry])
  {
    if lines == [] {
      SplitAtComma(line, entry);
      EntriesOfOne(entry);
      EntriesOfOne(line + [COMMA] + entry);
      assert [line, entry][1..] == [entry];
      assert lines + [line, entry] == [line, entry] && lines + [line + [COMMA] + entry] == [line + [COMMA] + entry];
    } else {
      AppendingToALineOrAddingOne(lines[1..], line, entry);
      assert (lines + [line + [COMMA] + entry])[1..] == lines[1..] + [line + [COMMA] + entry];
      assert (lines + [line, entry])[1..] == lines[1..] + [line, entry];
    }
  }

  // ---- Addresses ----

  /** Two clients share a rate-limit budget exactly when they are the same IPv4 host or in the same /64. */
  lemma SameBudgetIff(one: Ip, two: Ip)
    ensures one.PerNetwork() == two.PerNetwork() <==>
            match one
            case V4(a) => two == V4(a)
            case V6(a) => two.V6? && a / 0x1_0000_0000_0000_0000 == two.a6 / 0x1_0000_0000_0000_0000
    ensures one.PerNetwork().PerNetwork() == one.PerNetwork()
  {
    if one.V6? && two.V6? {
      KeyIsTheNetwork(one.a6);
      KeyIsTheNetwork(two.a6);
    } else if one.V6? {
      KeyIsTheNetwork(one.a6);
    }
  }

  lemma KeyIsTheNetwork(a: Addr6)
    ensures a - a % NETWORK_SIZE == NETWORK_SIZE * (a / NETWORK_SIZE)
    ensures (a - a % NETWORK_SIZE) % NETWORK_SIZE == 0
  {
    assert a == NETWORK_SIZE * (a / NETWORK_SIZE) + a % NETWORK_SIZE;
    assert (NETWORK_SIZE * (a / NETWORK_SIZE)) % NETWORK_SIZE == 0;
  }

  lemma ClientIsCanonical(peer: Ip, entries: seq<seq<Byte>>, trust: Trust, parse: HopParser)
    ensures Client(peer, entries, trust, parse).ToCanonical() == Client(peer, entries, trust, parse)
  {
    var k := StopExists(peer, entries, trust, parse);
    StopDecides(peer, entries, trust, parse, k);
  }

  /** `lo` begins a block of `size` addresses with `a` in it. */
  predicate InBlock(lo: int, size: int, a: int)
    requires size >= 1
  {
    lo % size == 0 && lo <= a < lo + size
  }

  /** One such block holds both. */
  ghost predicate InOneBlock(size: int, a: int, b: int)
    requires size >= 1
  {
    exists lo: int :: InBlock(lo, size, a) && InBlock(lo, size, b)
  }

  lemma SameQuotientIffBlock(a: int, b: int, size: int)
    requires size >= 1 && a >= 0 && b >= 0
    ensures a / size == b / size <==> InOneBlock(size, a, b)
  {
    var lo := size * (a / size);
    assert a == lo + a % size && b == size * (b / size) + b % size;
    MultipleHasNoRest(size, a / size);
    if a / size == b / size {
      assert InBlock(lo, size, a) && InBlock(lo, size, b);
    }
    if other: int :| InBlock(other, size, a) && InBlock(other, size, b) {
      assert other == size * (other / size) + other % size;
      QuotientIs(a, size, other / size, a - other);
      QuotientIs(b, size, other / size, b - other);
    }
  }

  lemma MultipleHasNoRest(size: int, q: int)
    requires size >= 1
    ensures (size * q) % size == 0
  {
    var a := size * q;
    QuotientIs(a, size, q, 0);
    assert a == size * (a / size) + a % size;
  }

  /** A net is the block of its size around its base: an IPv4 net of 2^(32 - prefix) addresses, an IPv6 net of 2^(128 - prefix). */
  lemma NetIsABlock(net: Net, ip: Ip)
    ensures net.Contains(ip) <==>
      match net
      case Net4(base, prefix) =>
        ip.V4? && prefix <= 32 && InOneBlock(Pow2(32 - prefix), ip.a4, base)
      case Net6(base, prefix) =>
        ip.V6? && prefix <= 128 && InOneBlock(Pow2(128 - prefix), ip.a6, base)
  {
    if net.Net4? && ip.V4? && net.prefix4 <= 32 {
      SameQuotientIffBlock(ip.a4, net.base4, Pow2(32 - net.prefix4));
    }
    if net.Net6? && ip.V6? && net.prefix6 <= 128 {
      SameQuotientIffBlock(ip.a6, net.base6, Pow2(128 - net.prefix6));
    }
  }

  lemma PowersOfTwo(bits: nat)
    ensures Pow2(0) == 1 && Pow2(bits + 1) == Pow2(bits) + Pow2(bits)
    ensures Pow2(32) == 0x1_0000_0000
  {
    Pow2Of32();
  }

  /** The canonical form: an IPv4-mapped address stands for the IPv4 address of its last 32 bits, any other for itself. */
  lemma CanonicalForm(a: Addr4, b: Addr6)
    ensures V4(a).ToCanonical() == V4(a)
    ensures 0xFFFF_0000_0000 + a < V6_SIZE && V6(0xFFFF_0000_0000 + a).ToCanonical() == V4(a)
    ensures b < 0xFFFF_0000_0000 || b >= 0x1_0000_0000_0000 ==> V6(b).ToCanonical() == V6(b)
  {
  }

  // ---- Trusted nets as written and as loaded ----

  /** The sizes of a block within the IPv4-mapped addresses, and of all of them, that `prefix` makes. */
  lemma BlockSizes(prefix: nat)
    requires 96 <= prefix <= 128
    ensures Pow2(128 - prefix) * Pow2(prefix - 96) == V4_SIZE
  {
    Pow2Divides(128 - prefix, 32);
    Pow2Of32();
  }

  lemma MappedIsABlock(a: int)
    requires a >= 0
    ensures IsMapped(a) <==> a / V4_SIZE == 0xFFFF
  {
  }

  /** A net of IPv4-mapped addresses contains exactly those that stand for what the loaded net contains. */
  lemma LoadedMappedNet(base: Addr6, prefix: nat, x: Addr6)
    requires IsMapped(base) && 96 <= prefix <= 128
    ensures Net6(base, prefix).Contains(V6(x)) <==> IsMapped(x) && Net6(base, prefix).Loaded().Contains(V4(x - MAPPED))
  {
    var size, count := Pow2(128 - prefix), Pow2(prefix - 96);
    BlockSizes(prefix);
    MappedIsABlock(base);
    MappedIsABlock(x);
    if x / size == base / size {
      SameBlock(x, base, size, count);
    }
    if IsMapped(x) {
      Shifted(x, size, count);
      Shifted(base, size, count);
    }
  }

  lemma Shifted(a: int, size: int, count: int)
    requires IsMapped(a) && size >= 1 && size * count == V4_SIZE
    ensures a / size == 0xFFFF * count + (a - MAPPED) / size
  {
    var q, r := (a - MAPPED) / size, (a - MAPPED) % size;
    assert a - MAPPED == size * q + r;
    Regroup(size, count, 0xFFFF, q);
    assert a == size * (count * 0xFFFF + q) + r;
    QuotientIs(a, size, count * 0xFFFF + q, r);
  }

  /** Which of two kinds of net an IPv6 net is: all of its IPv4-mapped addresses are in it, or none. */
  lemma MappedAllOrNone(base: Addr6, prefix: nat, x: Addr6)
    requires prefix < 96 && IsMapped(x)
    ensures Net6(base, prefix).Contains(V6(x)) <==> Net6(base, prefix).Contains(V6(MAPPED))
  {
    var count := Pow2(96 - prefix);
    Pow2Divides(32, 128 - prefix);
    Pow2Of32();
    MappedIsABlock(x);
    DivTwice(x, V4_SIZE, count);
    DivTwice(MAPPED, V4_SIZE, count);
  }

  lemma UnmappedNet(base: Addr6, prefix: nat, x: Addr6)
    requires 96 <= prefix && !IsMapped(base) && IsMapped(x)
    ensures !Net6(base, prefix).Contains(V6(x))
  {
    MappedIsABlock(base);
    MappedIsABlock(x);
    if prefix <= 128 && x / Pow2(128 - prefix) == base / Pow2(128 - prefix) {
      BlockSizes(prefix);
      SameBlock(x, base, Pow2(128 - prefix), Pow2(prefix - 96));
      assert false;
    }
  }

  lemma LoadedKeeps(net: Net, ip: Ip)
    requires net.Contains(ip) && !net.Surrounds()
    ensures net.Loaded().Contains(ip.ToCanonical())
  {
    if net.Net6? && IsMapped(ip.a6) {
      if net.prefix6 < 96 {
        MappedAllOrNone(net.base6, net.prefix6, ip.a6);
        assert false;
      } else if IsMapped(net.base6) {
        LoadedMappedNet(net.base6, net.prefix6, ip.a6);
      } else {
        UnmappedNet(net.base6, net.prefix6, ip.a6);
        assert false;
      }
    } else if net.Net6? && 96 <= net.prefix6 && IsMapped(net.base6) {
      LoadedMappedNet(net.base6, net.prefix6, ip.a6);
      assert false;
    }
  }

  /**
   * Loading a net keeps its meaning for addresses made canonical, unless it is an IPv6 net so wide that
   * the IPv4-mapped addresses are only part of it: such a net does not speak for IPv4 clients.
   */
  lemma LoadedKeepsTrustIff(net: Net)
    ensures (forall ip: Ip :: net.Contains(ip) ==> net.Loaded().Contains(ip.ToCanonical())) <==> !net.Surrounds()
  {
    if net.Surrounds() {
      assert net.Contains(V6(MAPPED)) && !net.Loaded().Contains(V6(MAPPED).ToCanonical());
    } else {
      forall ip: Ip | net.Contains(ip) ensures net.Loaded().Contains(ip.ToCanonical()) {
        LoadedKeeps(net, ip);
      }
    }
  }

  /** And it adds none: a canonical address in the loaded net stands for one in the net as written. */
  lemma LoadedAddsNothing(net: Net, c: Ip) returns (written: Ip)
    requires c.ToCanonical() == c && net.Loaded().Contains(c)
    ensures net.Contains(written) && written.ToCanonical() == c
  {
    written := c;
    if net.Loaded() != net {
      written := V6(c.a4 + MAPPED);
      LoadedMappedNet(net.base6, net.prefix6, written.a6);
    }
  }

  /** The proxies a service trusts are those its configuration names, whichever way it writes their addresses. */
  lemma LoadedNetsTrustTheSame(nets: seq<Net>, c: Ip)
    requires c.ToCanonical() == c && forall i :: 0 <= i < |nets| ==> !nets[i].Surrounds()
    ensures Trusted(LoadedNets(nets), c) <==> exists ip: Ip :: Trusted(nets, ip) && ip.ToCanonical() == c
  {
    var loaded := LoadedNets(nets);
    if Trusted(loaded, c) {
      var i :| 0 <= i < |loaded| && loaded[i].Contains(c);
      var ip := LoadedAddsNothing(nets[i], c);
      assert Trusted(nets, ip);
    }
    forall ip: Ip | Trusted(nets, ip) && ip.ToCanonical() == c ensures Trusted(loaded, c) {
      var i :| 0 <= i < |nets| && nets[i].Contains(ip);
      LoadedKeeps(nets[i], ip);
      assert loaded[i].Contains(c);
    }
  }

  lemma Pow2Of32()
    ensures Pow2(32) == V4_SIZE
  {
    assert Pow2(8) == 256;
    Pow2Divides(8, 16);
    Pow2Divides(16, 32);
  }

  lemma {:induction false} Pow2Divides(small: nat, big: nat)
    requires small <= big
    ensures Pow2(big) == Pow2(small) * Pow2(big - small)
    decreases big - small
  {
    if small < big {
      Pow2Divides(small, big - 1);
      assert Pow2(big - small) == 2 * Pow2(big - 1 - small);
    }
  }

  /** Addresses of one small block lie in one big block. */
  lemma SameBlock(a: int, b: int, size: int, count: int)
    requires size >= 1 && count >= 1 && size * count == V4_SIZE && 0 <= a && 0 <= b && a / size == b / size
    ensures a / V4_SIZE == b / V4_SIZE
  {
    DivTwice(a, size, count);
    DivTwice(b, size, count);
  }

  lemma DivTwice(a: int, size: int, count: int)
    requires size >= 1 && count >= 1 && a >= 0
    ensures a / (size * count) == (a / size) / count
  {
    var n := a / size;
    var q, r := n / count, n % count;
    assert a == size * n + a % size && n == count * q + r;
    Regroup(size, count, q, r);
    AtMost(size, r, count);
    QuotientIs(a, size * count, q, size * r + a % size);
  }

  lemma Regroup(size: int, count: int, q: int, r: int)
    ensures size * (count * q + r) == (size * count) * q + size * r
  {
  }

  lemma AtMost(size: int, r: int, count: int)
    requires size >= 1 && 0 <= r < count
    ensures 0 <= size * r <= size * count - size
    ensures size * count >= 1
  {
    assert size * (count - 1 - r) >= 0;
    assert size * (count - 1 - r) == size * count - size - size * r;
  }

  lemma QuotientIs(a: int, d: int, q: int, r: int)
    requires d >= 1 && a == d * q + r && 0 <= r < d
    ensures a / d == q
  {
    var p := a / d;
    assert a == d * p + a % d;
    assert d * (q - p) == d * q - d * p;
    if p != q {
      AtLeastOnce(d, if p < q then q - p else p - q);
    }
    assert d * (p - q) == -(d * (q - p));
  }

  lemma AtLeastOnce(d: int, n: int)
    requires d >= 1 && n >= 1
    ensures d * n >= d
  {
  }
}
