/**
 * The address and identity allocators of `utils/experiment.py`: the next
 * host-only address in 192.168.56.0/24 and the next "eggname", both computed
 * from the machine table and neither reserved.
 */
module Allocators {
  import opened Wrappers
  import opened Text
  import opened Records

  /** The managed subnet, written as the address prefix the allocator produces. */
  const Prefix: string := "192.168.56."
  /** The octet handed out when no machine is in the subnet yet. */
  const FirstOctet: int := 3
  /** The octet at which the allocator reports the subnet as used up. */
  const BoundaryOctet: int := 254

  /** How one known address bears on the allocation. */
  datatype AddressClass =
    | Foreign          // not four dot-separated parts starting 192, 168, 56
    | Octet(n: int)    // in the subnet, with last part `int(...)` = n
    | Unparsable       // in the subnet, but `int()` of the last part raises

  function ClassifyAddress(ip: string): AddressClass
  {
    var p := Split(ip, '.');
    if |p| != 4 || p[0] != "192" || p[1] != "168" || p[2] != "56" then Foreign
    else match ParseInt(p[3])
      case Some(n) => Octet(n)
      case None => Unparsable
  }

  /** How each known address bears on the allocation, in table order. */
  function Classes(ips: seq<string>): (cs: seq<AddressClass>)
    ensures |cs| == |ips| && forall i :: 0 <= i < |ips| ==> cs[i] == ClassifyAddress(ips[i])
  {
    seq(|ips|, i requires 0 <= i < |ips| => ClassifyAddress(ips[i]))
  }

  lemma ClassesAppend(x: seq<string>, y: seq<string>)
    ensures Classes(x + y) == Classes(x) + Classes(y)
  {
    var l := Classes(x + y);
    var r := Classes(x) + Classes(y);
    assert |l| == |r|;
    forall i | 0 <= i < |l| ensures l[i] == r[i] {
      if i < |x| {
        assert (x + y)[i] == x[i];
      } else {
        assert (x + y)[i] == y[i - |x|];
      }
    }
  }

  lemma ClassesSingle(ip: string)
    ensures Classes([ip]) == [ClassifyAddress(ip)]
  {
  }

  /** The last octets of the subnet's addresses, in order; `None` once one cannot be read. */
  function SubnetOctets(cs: seq<AddressClass>): Option<seq<int>>
  {
    if cs == [] then Some([])
    else match SubnetOctets(cs[..|cs| - 1])
      case None => None
      case Some(os) =>
        match cs[|cs| - 1]
        case Foreign => Some(os)
        case Octet(n) => Some(os + [n])
        case Unparsable => None
  }

  datatype AllocationError = SubnetExhausted | UnparsableAddress

  /** The octet `allocate_ip_address` picks: the largest plus one, or 3; an error at 254. */
  function NextOctet(cs: seq<AddressClass>): Result<int, AllocationError>
  {
    match SubnetOctets(cs)
    case None => Err(UnparsableAddress)
    case Some(os) =>
      var n := if os != [] then Max(os) + 1 else FirstOctet;
      if n == BoundaryOctet then Err(SubnetExhausted) else Ok(n)
  }

  /** What `allocate_ip_address` computes from the machines' addresses. */
  function NextAddress(ips: seq<string>): Result<string, AllocationError>
  {
    match NextOctet(Classes(ips))
    case Ok(n) => Ok(Prefix + FormatInt(n))
    case Err(e) => Err(e)
  }

  /** `allocate_ip_address`: collect the subnet's last octets, then take the largest plus one. */
  method AllocateIpAddress(machineIps: seq<string>) returns (r: Result<string, AllocationError>)
    ensures r == NextAddress(machineIps)
  {
    ghost var cs := Classes(machineIps);
    var ips: seq<int> := [];
    var i := 0;
    while i < |machineIps|
      invariant 0 <= i <= |machineIps|
      invariant SubnetOctets(cs[..i]) == Some(ips)
    {
      SubnetOctetsStep(cs, i);
      // `ip.split(".")`, the 192.168.56 test and `int(ip[3])`
      match ClassifyAddress(machineIps[i]) {
        case Foreign =>
        case Unparsable =>
          SubnetOctetsNoneExtends(cs, i + 1);
          return Err(UnparsableAddress);
        case Octet(n) =>
          ips := ips + [n];
      }
      i := i + 1;
    }
    assert cs[..i] == cs;
    var nextIp := if ips != [] then Max(ips) + 1 else FirstOctet;
    if nextIp == BoundaryOctet {
      return Err(SubnetExhausted);
    }
    return Ok(Prefix + FormatInt(nextIp));
  }

  /** One more address read: its class decides what happens to the octets collected so far. */
  lemma SubnetOctetsStep(cs: seq<AddressClass>, i: nat)
    requires i < |cs|
    ensures SubnetOctets(cs[..i + 1]) ==
      match SubnetOctets(cs[..i])
      case None => None
      case Some(os) =>
        match cs[i]
        case Foreign => Some(os)
        case Octet(n) => Some(os + [n])
        case Unparsable => None
  {
    assert cs[..i + 1][..i] == cs[..i];
  }

  lemma {:induction false} SubnetOctetsNoneExtends(cs: seq<AddressClass>, k: nat)
    requires k <= |cs| && SubnetOctets(cs[..k]) == None
    ensures SubnetOctets(cs) == None
    decreases |cs| - k
  {
    if k < |cs| {
      assert cs[..k + 1][..k] == cs[..k];
      SubnetOctetsNoneExtends(cs, k + 1);
    } else {
      assert cs[..k] == cs;
    }
  }

  /** No address is in the subnet with an unreadable last part. */
  ghost predicate AllReadable(cs: seq<AddressClass>) {
    forall i :: 0 <= i < |cs| ==> !cs[i].Unparsable?
  }

  /** Some known address is `192.168.56.n`, as the allocator reads it. */
  ghost predicate HasOctet(cs: seq<AddressClass>, n: int) {
    exists i :: 0 <= i < |cs| && cs[i] == Octet(n)
  }

  /** When every address is readable, the collected octets are exactly those of the subnet's addresses. */
  lemma {:induction false} SubnetOctetsMembers(cs: seq<AddressClass>)
    requires AllReadable(cs)
    ensures SubnetOctets(cs).Some?
    ensures forall n :: n in SubnetOctets(cs).value <==> HasOctet(cs, n)
  {
    if cs != [] {
      var init := cs[..|cs| - 1];
      assert AllReadable(init) by {
        forall i | 0 <= i < |init| ensures !init[i].Unparsable? {
          assert init[i] == cs[i];
        }
      }
      SubnetOctetsMembers(init);
      forall n ensures n in SubnetOctets(cs).value <==> HasOctet(cs, n) {
        if HasOctet(init, n) {
          var i :| 0 <= i < |init| && init[i] == Octet(n);
          assert cs[i] == init[i];
        }
        if HasOctet(cs, n) {
          var i :| 0 <= i < |cs| && cs[i] == Octet(n);
          if i < |init| {
            assert init[i] == cs[i];
          }
        }
      }
    }
  }

  /** An address in the subnet whose last part `int()` rejects makes the allocation fail. */
  lemma UnreadableFails(cs: seq<AddressClass>, k: nat)
    requires k < |cs| && cs[k].Unparsable?
    ensures NextOctet(cs) == Err(UnparsableAddress)
  {
    var pre := cs[..k + 1];
    assert pre[..k] == cs[..k];
    assert SubnetOctets(pre) == None;
    SubnetOctetsNoneExtends(cs, k + 1);
  }

  /**
   * The allocation rule: with `n` one more than the largest last octet of the
   * subnet's addresses, or 3 when no address is in the subnet, the result is
   * `n`, unless `n` is exactly 254.
   */
  lemma NextOctetIsMaxPlusOne(cs: seq<AddressClass>, n: int)
    requires AllReadable(cs)
    requires forall m :: HasOctet(cs, m) ==> m < n
    requires HasOctet(cs, n - 1) || (n == FirstOctet && forall m :: !HasOctet(cs, m))
    ensures NextOctet(cs) == if n == BoundaryOctet then Err(SubnetExhausted) else Ok(n)
  {
    SubnetOctetsMembers(cs);
    var os := SubnetOctets(cs).value;
    if os != [] {
      assert HasOctet(cs, Max(os));
      assert n - 1 in os;
    }
  }

  /** The same rule, for the allocated address. */
  lemma NextAddressIsMaxPlusOne(ips: seq<string>, n: int)
    requires AllReadable(Classes(ips))
    requires forall m :: HasOctet(Classes(ips), m) ==> m < n
    requires HasOctet(Classes(ips), n - 1) || (n == FirstOctet && forall m :: !HasOctet(Classes(ips), m))
    ensures NextAddress(ips) == if n == BoundaryOctet then Err(SubnetExhausted) else Ok(Prefix + FormatInt(n))
  {
    NextOctetIsMaxPlusOne(Classes(ips), n);
  }

  /** The allocated address is read back as `192.168.56.n`. */
  lemma ClassifyPrefixed(n: int)
    ensures ClassifyAddress(Prefix + FormatInt(n)) == Octet(n)
  {
    var x := FormatInt(n);
    assert '.' !in x;
    ParseFormatInt(n);
    ClassifyPrefixedText(x, n);
  }

  lemma ClassifyPrefixedText(x: string, n: int)
    requires '.' !in x && ParseInt(x) == Some(n)
    ensures ClassifyAddress(Prefix + x) == Octet(n)
  {
    PrefixSplit(x);
    SubnetParts(Split(Prefix + x, '.'), x);
  }

  lemma SubnetParts(p: seq<string>, x: string)
    requires p == ["192", "168", "56", x]
    ensures |p| == 4 && p[0] == "192" && p[1] == "168" && p[2] == "56" && p[3] == x
  {
  }

  lemma PrefixSplit(x: string)
    requires '.' !in x
    ensures Split(Prefix + x, '.') == ["192", "168", "56", x]
  {
    var parts := ["192", "168", "56", x];
    assert Join(parts[3..], '.') == x;
    assert Join(parts[2..], '.') == "56." + x;
    assert Join(parts[1..], '.') == "168.56." + x;
    assert Join(parts, '.') == Prefix + x;
    SplitJoin(parts, '.');
  }

  /** Addresses outside the subnet, wherever they stand, do not change the result. */
  lemma ForeignAddressIgnored(a: seq<string>, ip: string, b: seq<string>)
    requires ClassifyAddress(ip) == Foreign
    ensures NextAddress(a + [ip] + b) == NextAddress(a + b)
  {
    ClassesAppend(a + [ip], b);
    ClassesAppend(a, [ip]);
    ClassesSingle(ip);
    ClassesAppend(a, b);
    SubnetOctetsSkip(Classes(a), Classes(b));
    assert Classes(a + [ip] + b) == Classes(a) + [Foreign] + Classes(b);
    SameOctetSameAddress(a + [ip] + b, a + b);
  }

  lemma SameOctetSameAddress(x: seq<string>, y: seq<string>)
    requires SubnetOctets(Classes(x)) == SubnetOctets(Classes(y))
    ensures NextAddress(x) == NextAddress(y)
  {
  }

  lemma {:induction false} SubnetOctetsSkip(a: seq<AddressClass>, b: seq<AddressClass>)
    ensures SubnetOctets(a + [Foreign] + b) == SubnetOctets(a + b)
    decreases |b|
  {
    if b == [] {
      assert (a + [Foreign] + b)[..|a|] == a;
      assert a + b == a;
    } else {
      var b' := b[..|b| - 1];
      SubnetOctetsSkip(a, b');
      assert (a + [Foreign] + b)[..|a + [Foreign] + b| - 1] == a + [Foreign] + b';
      assert (a + b)[..|a + b| - 1] == a + b';
    }
  }

  /** An allocation that succeeds names an address no known machine has. */
  lemma NextAddressFresh(ips: seq<string>)
    requires NextAddress(ips).Ok?
    ensures NextAddress(ips).value !in ips
  {
    var cs := Classes(ips);
    var n := NextOctet(cs).value;
    ClassifyPrefixed(n);
    assert AllReadable(cs) by {
      forall k | 0 <= k < |cs| ensures !cs[k].Unparsable? {
        if cs[k].Unparsable? {
          UnreadableFails(cs, k);
        }
      }
    }
    SubnetOctetsMembers(cs);
    var os := SubnetOctets(cs).value;
    forall k | 0 <= k < |ips| ensures ips[k] != Prefix + FormatInt(n) {
      assert ips[k] == Prefix + FormatInt(n) ==> HasOctet(cs, n);
    }
  }

  /** The subnet counts as used up exactly when the largest octet is 253: the test is equality, not a bound. */
  lemma ExhaustedExactlyAfter253(cs: seq<AddressClass>)
    ensures NextOctet(cs) == Err(SubnetExhausted) <==>
            AllReadable(cs) && HasOctet(cs, 253) && forall m :: HasOctet(cs, m) ==> m <= 253
  {
    if NextOctet(cs) == Err(SubnetExhausted) {
      assert AllReadable(cs) by {
        forall k | 0 <= k < |cs| ensures !cs[k].Unparsable? {
          if cs[k].Unparsable? {
            UnreadableFails(cs, k);
          }
        }
      }
      SubnetOctetsMembers(cs);
      var os := SubnetOctets(cs).value;
      assert os != [];
      assert HasOctet(cs, Max(os));
    }
    if AllReadable(cs) && HasOctet(cs, 253) && forall m :: HasOctet(cs, m) ==> m <= 253 {
      NextOctetIsMaxPlusOne(cs, 254);
    }
  }

  /** A largest octet of 254 passes the boundary test and yields the broadcast address .255. */
  lemma PastBoundaryGivesBroadcast(ips: seq<string>)
    requires AllReadable(Classes(ips)) && HasOctet(Classes(ips), 254)
    requires forall m :: HasOctet(Classes(ips), m) ==> m <= 254
    ensures NextAddress(ips) == Ok(Prefix + "255")
  {
    NextOctetIsMaxPlusOne(Classes(ips), 255);
    FormatBroadcastOctet();
    AddressLiteral(255, "255");
  }

  lemma FormatBroadcastOctet()
    ensures FormatInt(255) == "255"
  {
    assert FormatNat(2) == "2";
    assert FormatNat(25) == FormatNat(2) + [DigitChar(5)];
    assert FormatNat(255) == FormatNat(25) + [DigitChar(5)];
  }

  /** Adding a machine at the allocated address makes the next allocation the following octet. */
  lemma NextAddressAfterProvisioning(ips: seq<string>, n: int)
    requires NextOctet(Classes(ips)) == Ok(n)
    requires n + 1 != BoundaryOctet
    ensures NextAddress(ips + [Prefix + FormatInt(n)]) == Ok(Prefix + FormatInt(n + 1))
  {
    var a := Prefix + FormatInt(n);
    ClassifyPrefixed(n);
    ClassesAppend(ips, [a]);
    ClassesSingle(a);
    NextOctetAfter(Classes(ips), n);
  }

  /** The same at the level of address classes: one more address at octet `n` moves the allocation to `n + 1`. */
  lemma NextOctetAfter(cs: seq<AddressClass>, n: int)
    requires NextOctet(cs) == Ok(n)
    requires n + 1 != BoundaryOctet
    ensures NextOctet(cs + [Octet(n)]) == Ok(n + 1)
  {
    var os := SubnetOctets(cs).value;
    var cs' := cs + [Octet(n)];
    assert cs'[..|cs'| - 1] == cs;
    assert SubnetOctets(cs') == Some(os + [n]);
    MaxAppendLarger(os, n);
  }

  lemma MaxAppendLarger(os: seq<int>, n: int)
    requires os != [] ==> Max(os) < n
    ensures Max(os + [n]) == n
  {
    var t := os + [n];
    assert t[|os|] == n;
    forall i | 0 <= i < |os| ensures t[i] < n {
      assert t[i] == os[i];
    }
  }

  lemma AddressLiteral(n: nat, digits: string)
    requires FormatInt(n) == digits
    ensures Prefix + FormatInt(n) == Prefix + digits
  {
  }

  /** Machines at .3 and .7 give .8. */
  lemma ThreeAndSevenGiveEight()
    ensures NextAddress([Prefix + "3", Prefix + "7"]) == Ok(Prefix + "8")
  {
    AddressLiteral(3, "3");
    AddressLiteral(7, "7");
    AddressLiteral(8, "8");
    ClassifyPrefixed(3);
    ClassifyPrefixed(7);
    ThreeAndSevenOctets(Prefix + "3", Prefix + "7");
  }

  lemma ThreeAndSevenOctets(x: string, y: string)
    requires ClassifyAddress(x) == Octet(3) && ClassifyAddress(y) == Octet(7)
    ensures NextOctet(Classes([x, y])) == Ok(8)
  {
    var cs := Classes([x, y]);
    assert cs == [Octet(3), Octet(7)];
    OctetsThreeAndSeven(cs);
  }

  lemma OctetsThreeAndSeven(cs: seq<AddressClass>)
    requires cs == [Octet(3), Octet(7)]
    ensures NextOctet(cs) == Ok(8)
  {
    assert cs[..0] == [] && cs[..2] == cs;
    SubnetOctetsStep(cs, 0);
    assert [] + [3] == [3];
    SubnetOctetsStep(cs, 1);
    assert [3] + [7] == [3, 7];
    assert SubnetOctets(cs) == Some([3, 7]);
    assert Max([3, 7]) == 7;
  }

  /** An empty fleet starts at .3. */
  lemma EmptyFleetStartsAtThree()
    ensures NextAddress([]) == Ok(Prefix + "3")
  {
    EmptyFleetOctet();
    AddressLiteral(3, "3");
  }

  lemma EmptyFleetOctet()
    ensures NextAddress([]) == Ok(Prefix + FormatInt(3))
  {
    assert Classes([]) == [];
    assert NextOctet([]) == Ok(3);
  }

  /** `allocate_eggname`: `"egg%02d" % (machine count + 1)`. */
  function AllocateEggname(machineCount: nat): (name: string)
    ensures |name| >= 5 && name[..3] == "egg"
    ensures AllDigits(name[3..]) && DecimalValue(name[3..]) == machineCount + 1
    ensures |name| > 5 ==> name[3] != '0'
  {
    var digits := FormatPadded2(machineCount + 1);
    assert ("egg" + digits)[3..] == digits;
    "egg" + digits
  }

  /** Distinct machine counts give distinct eggnames. */
  lemma EggnameInjective(a: nat, b: nat)
    requires AllocateEggname(a) == AllocateEggname(b)
    ensures a == b
  {
  }

  /** The two-digit width holds for counts 0 through 98; count 99 gives "egg100". */
  lemma EggnameWidth(count: nat)
    ensures |AllocateEggname(count)| == 5 <==> count <= 98
  {
  }
}
