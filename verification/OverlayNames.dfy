/**
 Names that are no words: an account's file may be called "my acct.yaml", and a registry's lines are read by their
 fields. What is lost then, and for exactly which names.
 */
module OverlayNames {
  import opened Ipv4
  import opened OverlayHub
  import opened Text
  import opened Wrappers

  /** The allocations after an unknown name got its address. */
  function AfterAllocation(alloc: seq<Line>, name: string, ip: string): seq<Line> {
    alloc + [LineOf([name, ip])]
  }

  lemma LineOfPair(name: string, ip: string)
    requires IsWord(ip)
    ensures LineOf([name, ip]) == Words(name) + [ip]
    ensures |Words(name)| == 1 && Words(name)[0] == name <==> IsWord(name)
  {
    WordsSnoc(name, ip);
    assert [name, ip][1..] == [ip] && Join([ip]) == ip;
    assert Join([name, ip]) == name + (" " + ip);
    if IsWord(name) {
      FirstWord(name, "");
      assert name + "" == name;
    }
  }

  lemma LookupSnoc(alloc: seq<Line>, line: Line, name: string)
    ensures LookupLast(alloc + [line], name) ==
            if |line| == 2 && line[0] == name then Some(line[1]) else LookupLast(alloc, name)
  {
    assert (alloc + [line])[..|alloc|] == alloc;
  }

  /** A name that just got an address is found again if and only if it is a word. */
  lemma NameFoundIff(alloc: seq<Line>, name: string, ip: string)
    requires LookupLast(alloc, name) == None && IsWord(ip)
    ensures LookupLast(AfterAllocation(alloc, name, ip), name) == Some(ip) <==> IsWord(name)
    ensures !IsWord(name) ==> LookupLast(AfterAllocation(alloc, name, ip), name) == None
  {
    LineOfPair(name, ip);
    LookupSnoc(alloc, LineOf([name, ip]), name);
  }

  lemma UsedAfter(net: Network, alloc: seq<Line>, line: Line)
    ensures UsedIps(net, alloc + [line]) == UsedIps(net, alloc) + if |line| == 2 then {line[1]} else {}
  {
    var now := alloc + [line];
    assert forall i :: 0 <= i < |alloc| ==> now[i] == alloc[i];
    assert now[|alloc|] == line;
  }

  /** The next unknown name gets the same address again if and only if the first one is not one word. */
  lemma AddressSharedIff(net: Network, alloc: seq<Line>, name: string, ip: string, other: string)
    requires LookupLast(alloc, name) == None && AllocatedIp(net, alloc, name) == Some(ip)
    requires LookupLast(AfterAllocation(alloc, name, ip), other) == None
    ensures AllocatedIp(net, AfterAllocation(alloc, name, ip), other) == Some(ip) <==> |Words(name)| != 1
  {
    FirstFreeIsFree(net.Hosts(), UsedIps(net, alloc));
    var a :| a in net.Hosts() && ip == ShowAddress(a);
    AddressIsWord(a);
    LineOfPair(name, ip);
    AfterLine(net, alloc, LineOf([name, ip]), ip, other);
  }

  lemma AfterLine(net: Network, alloc: seq<Line>, line: Line, ip: string, other: string)
    requires FirstFree(net.Hosts(), UsedIps(net, alloc)) == Some(ip) && LookupLast(alloc + [line], other) == None
    requires |line| == 2 ==> line[1] == ip
    ensures AllocatedIp(net, alloc + [line], other) == Some(ip) <==> |line| != 2
  {
    UsedAfter(net, alloc, line);
    FreeAfter(net.Hosts(), UsedIps(net, alloc), UsedIps(net, alloc + [line]), line, ip);
  }

  lemma FreeAfter(hosts: seq<nat>, used: set<string>, now: set<string>, line: Line, ip: string)
    requires FirstFree(hosts, used) == Some(ip) && now == used + if |line| == 2 then {line[1]} else {}
    requires |line| == 2 ==> line[1] == ip
    ensures FirstFree(hosts, now) == Some(ip) <==> |line| != 2
  {
    NoUsedAddress(hosts, now, ip);
    if |line| != 2 { assert now == used; }
  }

  lemma NoUsedAddress(hosts: seq<nat>, used: set<string>, ip: string)
    ensures ip in used ==> FirstFree(hosts, used) != Some(ip)
  {
    FirstFreeIsFree(hosts, used);
  }

  lemma {:induction false} FilterTwice(lines: seq<Line>, keep: Line -> bool)
    ensures Filter(Filter(lines, keep), keep) == Filter(lines, keep)
  {
    if lines != [] {
      var n := |lines| - 1;
      var kept := Filter(lines[..n], keep);
      FilterTwice(lines[..n], keep);
      if keep(lines[n]) { FilterSnoc(kept, lines[n], keep); } else { assert kept + [] == kept; }
    }
  }

  lemma FilterSnoc(lines: seq<Line>, line: Line, keep: Line -> bool)
    ensures Filter(lines + [line], keep) == Filter(lines, keep) + if keep(line) then [line] else []
  {
    assert (lines + [line])[..|lines|] == lines;
  }

  /**
   A site that registers again leaves the registry as it is if and only if its name is a word; else it adds a line.
   */
  lemma RegisterTwiceIff(sites: seq<Line>, name: string, cidr: string)
    requires IsWord(cidr)
    ensures var line := LineOf([name, cidr]);
            var once := Upsert(sites, 0, name, line);
            var twice := Upsert(once, 0, name, line);
            (twice == once <==> IsWord(name)) && (!IsWord(name) ==> twice == once + [line])
  {
    var line := LineOf([name, cidr]);
    var keep: Line -> bool := l => !FieldIs(l, 0, name);
    var kept := Filter(sites, keep);
    FilterSame(sites, keep, l => !FieldIs(l, 0, name));
    FilterSame(kept + [line], keep, l => !FieldIs(l, 0, name));
    LineOfPair(name, cidr);
    FilterTwice(sites, keep);
    FilterSnoc(kept, line, keep);
    assert FieldIs(line, 0, name) <==> IsWord(name);
    assert Upsert(sites, 0, name, line) == kept + [line];
    assert Upsert(kept + [line], 0, name, line) == Filter(kept + [line], keep) + [line];
    assert |kept + [line] + [line]| == |kept + [line]| + 1;
    if IsWord(name) { assert kept + [] == kept; }
  }
}
