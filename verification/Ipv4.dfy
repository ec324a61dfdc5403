/** IPv4 addresses and networks, as Python's ipaddress module writes and enumerates them. */
module Ipv4 {
  import opened Decimal
  import opened Text
  import opened Wrappers

  type Address = a: nat | a < 0x1_0000_0000

  /** A network: its first address and its number of addresses, within the address space. */
  type Network = n: Range | n.Valid() witness Range(0, 1)

  datatype Range = Range(base: nat, size: nat) {
    predicate Valid() {
      0 < size && base + size <= 0x1_0000_0000
    }

    predicate Contains(a: nat) {
      base <= a < base + size
    }

    /** list(network.hosts()): without the network and broadcast addresses, unless there is no room for them. */
    function Hosts(): (hs: seq<nat>)
      ensures forall i :: 0 <= i < |hs| ==> Contains(hs[i])
      ensures forall i, j :: 0 <= i < j < |hs| ==> hs[i] < hs[j]
    {
      if size <= 2 then seq(size, i => base + i) else seq(size - 2, i => base + 1 + i)
    }
  }

  /** Neither the first nor the last address of a network of more than two. */
  predicate Usable(base: nat, size: nat, a: nat) {
    if size <= 2 then base <= a < base + size else base < a < base + size - 1
  }

  lemma HostsAreUsable(net: Network, a: nat)
    ensures a in net.Hosts() <==> Usable(net.base, net.size, a)
  {
    var hs := net.Hosts();
    if Usable(net.base, net.size, a) {
      var i := if net.size <= 2 then a - net.base else a - net.base - 1;
      assert hs[i] == a;
    }
  }

  function Octet(a: nat, k: nat): nat
    requires k < 4
  {
    if k == 0 then a / 0x100_0000 % 256
    else if k == 1 then a / 0x1_0000 % 256
    else if k == 2 then a / 0x100 % 256
    else a % 256
  }

  /** str(address) */
  function ShowAddress(a: nat): string {
    Show(Octet(a, 0)) + (['.'] + (Show(Octet(a, 1)) + (['.'] + (Show(Octet(a, 2)) + (['.'] + Show(Octet(a, 3)))))))
  }

  /** Reads dotted decimal numbers; what comes of other texts does not matter. */
  function Decode(s: string, high: nat, low: nat): nat
    decreases |s|
  {
    if s == [] then high * 256 + low
    else if s[0] == '.' then Decode(s[1..], high * 256 + low, 0)
    else if IsDigit(s[0]) then Decode(s[1..], high, low * 10 + ValueOf(s[0]))
    else 0
  }

  /** ip_address(s): the address whose text is s. */
  function ParseAddress(s: string): (r: Option<nat>)
    ensures r.Some? ==> r.value < 0x1_0000_0000 && ShowAddress(r.value) == s
  {
    var a := Decode(s, 0, 0);
    if a < 0x1_0000_0000 && ShowAddress(a) == s then Some(a) else None
  }

  predicate IsAddress(s: string) {
    ParseAddress(s).Some?
  }

  lemma {:induction false} DecodeShown(n: nat, rest: string, high: nat)
    ensures Decode(Show(n) + rest, high, 0) == Decode(rest, high, n)
  {
    if n < 10 {
      assert (Show(n) + rest)[1..] == rest;
    } else {
      var d := [DigitOf(n % 10)];
      assert Show(n) + rest == Show(n / 10) + (d + rest);
      DecodeShown(n / 10, d + rest, high);
      assert (d + rest)[1..] == rest;
    }
  }

  lemma DecodeOctet(n: nat, rest: string, high: nat)
    ensures Decode(Show(n) + (['.'] + rest), high, 0) == Decode(rest, high * 256 + n, 0)
  {
    DecodeShown(n, ['.'] + rest, high);
    assert (['.'] + rest)[1..] == rest;
  }

  lemma DecodeTwo(w: nat, x: nat, rest: string, high: nat, sum: nat)
    requires sum == (high * 256 + w) * 256 + x
    ensures Decode(Show(w) + (['.'] + (Show(x) + (['.'] + rest))), high, 0) == Decode(rest, sum, 0)
  {
    DecodeOctet(w, Show(x) + (['.'] + rest), high);
    DecodeOctet(x, rest, high * 256 + w);
  }

  lemma DecodeLastTwo(y: nat, z: nat, high: nat)
    ensures Decode(Show(y) + (['.'] + Show(z)), high, 0) == (high * 256 + y) * 256 + z
  {
    DecodeOctet(y, Show(z), high);
    DecodeShown(z, [], high * 256 + y);
    assert Show(z) + [] == Show(z);
  }

  lemma DecodeOctets(w: nat, x: nat, y: nat, z: nat, sum: nat)
    requires sum == w * 256 + x
    ensures Decode(Show(w) + (['.'] + (Show(x) + (['.'] + (Show(y) + (['.'] + Show(z)))))), 0, 0)
            == (sum * 256 + y) * 256 + z
  {
    DecodeTwo(w, x, Show(y) + (['.'] + Show(z)), 0, sum);
    DecodeLastTwo(y, z, sum);
  }

  /** An address is read back from its text, so different addresses have different texts. */
  lemma ParseShown(a: nat)
    requires a < 0x1_0000_0000
    ensures ParseAddress(ShowAddress(a)) == Some(a)
  {
    DecodeOctets(Octet(a, 0), Octet(a, 1), Octet(a, 2), Octet(a, 3), Octet(a, 0) * 256 + Octet(a, 1));
    OctetsMakeAddress(a);
  }

  lemma OctetsMakeAddress(a: nat)
    requires a < 0x1_0000_0000
    ensures ((Octet(a, 0) * 256 + Octet(a, 1)) * 256 + Octet(a, 2)) * 256 + Octet(a, 3) == a
  {
    var b := a / 0x100;
    var c := a / 0x1_0000;
    assert b / 0x100 == c;
    assert c / 0x100 == a / 0x100_0000;
  }

  /** The text of an address is one word without a comma. */
  lemma AddressIsWord(a: nat)
    ensures IsWord(ShowAddress(a)) && ',' !in ShowAddress(a)
  {
    DigitsAreWord(Show(Octet(a, 3)));
    DottedIsWord(Show(Octet(a, 2)), Show(Octet(a, 3)));
    DottedIsWord(Show(Octet(a, 1)), Show(Octet(a, 2)) + (['.'] + Show(Octet(a, 3))));
    DottedIsWord(Show(Octet(a, 0)), Show(Octet(a, 1)) + (['.'] + (Show(Octet(a, 2)) + (['.'] + Show(Octet(a, 3))))));
  }

  lemma DigitsAreWord(digits: string)
    requires digits != [] && AllDigits(digits)
    ensures IsWord(digits) && ',' !in digits
  {
  }

  lemma DottedIsWord(digits: string, rest: string)
    requires digits != [] && AllDigits(digits) && IsWord(rest) && ',' !in rest
    ensures IsWord(digits + (['.'] + rest)) && ',' !in digits + (['.'] + rest)
  {
    DigitsAreWord(digits);
  }
}
