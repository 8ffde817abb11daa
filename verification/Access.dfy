/** Access control by longest matching prefix, and what that means in terms of networks. */
module Access {
  import opened Words
  import opened Addresses

  /** An address with a prefix length; host bits may be set, as the configuration allows. */
  datatype IpNet =
    | V4Net(v4: v4bits, v4Length: nat)
    | V6Net(v6: v6bits, v6Length: nat)

  predicate ValidNet(n: IpNet) {
    match n
    case V4Net(_, length) => length <= 32
    case V6Net(_, length) => length <= 128
  }

  function PrefixLength(n: IpNet): nat {
    if n.V4Net? then n.v4Length else n.v6Length
  }

  /** `x >> k`. */
  function ShiftRight(x: nat, k: nat): nat
    decreases k
  {
    if k == 0 then x else ShiftRight(x / 2, k - 1)
  }

  predicate SamePrefix(width: nat, length: nat, a: nat, b: nat)
    requires length <= width
  {
    ShiftRight(a, width - length) == ShiftRight(b, width - length)
  }

  predicate Contains(n: IpNet, ip: IpAddr)
    requires ValidNet(n)
  {
    match (n, ip)
    case (V4Net(address, length), V4(bits)) => SamePrefix(32, length, address, bits)
    case (V6Net(address, length), V6(bits)) => SamePrefix(128, length, address, bits)
    case _ => false
  }

  datatype AccessDecision = Permitted | Denied

  datatype AccessControl = AccessControl(allow: seq<IpNet>, deny: seq<IpNet>, defaultAllow: bool)

  predicate ValidRules(rules: seq<IpNet>) {
    forall n :: n in rules ==> ValidNet(n)
  }

  predicate ValidTable(t: AccessControl) {
    ValidRules(t.allow) && ValidRules(t.deny)
  }

  /** IPv4-mapped IPv6 addresses (::ffff:a.b.c.d) count as IPv4. */
  function Canonicalise(ip: IpAddr): IpAddr {
    match ip
    case V6(bits) => if bits / 0x1_0000_0000 == 0xFFFF then V4(bits % 0x1_0000_0000) else ip
    case V4(_) => ip
  }

  function LongestMatch(rules: seq<IpNet>, ip: IpAddr): Option<nat>
    requires ValidRules(rules)
    decreases |rules|
  {
    if rules == [] then None
    else
      var rest := LongestMatch(rules[1..], ip);
      if !Contains(rules[0], ip) then rest
      else if rest.Some? && rest.value >= PrefixLength(rules[0]) then rest
      else Some(PrefixLength(rules[0]))
  }

  function Evaluate(t: AccessControl, source: IpAddr): AccessDecision
    requires ValidTable(t)
  {
    var ip := Canonicalise(source);
    match (LongestMatch(t.allow, ip), LongestMatch(t.deny, ip))
    case (Some(allow), Some(deny)) => if deny >= allow then Denied else Permitted
    case (Some(_), None) => Permitted
    case (None, Some(_)) => Denied
    case (None, None) => if t.defaultAllow then Permitted else Denied
  }

  // ---------------------------------------------------------------------
  // Networks as sets of addresses
  // ---------------------------------------------------------------------

  function Pow2(k: nat): nat {
    if k == 0 then 1 else 2 * Pow2(k - 1)
  }

  /** Block q of the addresses cut into blocks of 2^k. */
  predicate InBlock(q: nat, k: nat, x: nat) {
    q * Pow2(k) <= x < (q + 1) * Pow2(k)
  }

  lemma {:induction false} ShiftIsBlock(x: nat, k: nat)
    ensures InBlock(ShiftRight(x, k), k, x) && Pow2(k) >= 1
    decreases k
  {
    if k > 0 {
      ShiftIsBlock(x / 2, k - 1);
      TwiceTheBlock(ShiftRight(x, k), Pow2(k - 1), x);
    }
  }

  lemma TwiceTheBlock(q: nat, half: nat, x: nat)
    requires q * half <= x / 2 < (q + 1) * half
    ensures q * (2 * half) <= x < (q + 1) * (2 * half)
  {
    var low, high := q * half, (q + 1) * half;
    assert q * (2 * half) == 2 * low && (q + 1) * (2 * half) == 2 * high;
  }

  lemma BlockIsUnique(q: nat, k: nat, x: nat)
    requires InBlock(q, k, x)
    ensures q == ShiftRight(x, k)
  {
    ShiftIsBlock(x, k);
    var size, other := Pow2(k), ShiftRight(x, k);
    RemainderOf(x, size, q, x - q * size);
    RemainderOf(x, size, other, x - other * size);
  }

  /** Addresses a and b lie in the same block of 2^k. */
  ghost predicate SameBlock(k: nat, a: nat, b: nat) {
    exists q: nat :: InBlock(q, k, a) && InBlock(q, k, b)
  }

  lemma SameBlockExactly(k: nat, a: nat, b: nat)
    ensures SameBlock(k, a, b) <==> ShiftRight(a, k) == ShiftRight(b, k)
  {
    ShiftIsBlock(a, k);
    ShiftIsBlock(b, k);
    if q: nat :| InBlock(q, k, a) && InBlock(q, k, b) {
      BlockIsUnique(q, k, a);
      BlockIsUnique(q, k, b);
    }
  }

  /** A network of prefix length n is the aligned block of 2^(32 - n) or 2^(128 - n) addresses around its own
      one, and has no address of the other family. */
  lemma NetworkIsBlock(n: IpNet, ip: IpAddr)
    requires ValidNet(n)
    ensures Contains(n, ip) <==>
      || (n.V4Net? && ip.V4? && SameBlock(32 - n.v4Length, n.v4, ip.v4))
      || (n.V6Net? && ip.V6? && SameBlock(128 - n.v6Length, n.v6, ip.v6))
  {
    if n.V4Net? && ip.V4? {
      SameBlockExactly(32 - n.v4Length, n.v4, ip.v4);
    } else if n.V6Net? && ip.V6? {
      SameBlockExactly(128 - n.v6Length, n.v6, ip.v6);
    }
  }

  /** Every address of `inner` is in `outer`. */
  ghost predicate Includes(outer: IpNet, inner: IpNet)
    requires ValidNet(outer) && ValidNet(inner)
  {
    forall ip :: Contains(inner, ip) ==> Contains(outer, ip)
  }

  lemma {:induction false} ShiftTwice(x: nat, j: nat, k: nat)
    ensures ShiftRight(x, j + k) == ShiftRight(ShiftRight(x, j), k)
    decreases j
  {
    if j > 0 {
      ShiftTwice(x / 2, j - 1, k);
    }
  }

  /** A longer common prefix is a common prefix. */
  lemma ShorterPrefix(width: nat, long: nat, short: nat, a: nat, b: nat)
    requires short <= long <= width && SamePrefix(width, long, a, b)
    ensures SamePrefix(width, short, a, b)
  {
    ShiftTwice(a, width - long, long - short);
    ShiftTwice(b, width - long, long - short);
  }

  function FlipBit(x: nat, k: nat): nat
    decreases k
  {
    if k > 0 then 2 * FlipBit(x / 2, k - 1) + x % 2
    else if x % 2 == 0 then x + 1 else x - 1
  }

  lemma {:induction false} FlippedBitShows(x: nat, k: nat)
    ensures ShiftRight(FlipBit(x, k), k) != ShiftRight(x, k)
    ensures ShiftRight(FlipBit(x, k), k + 1) == ShiftRight(x, k + 1)
    decreases k
  {
    if k > 0 {
      FlippedBitShows(x / 2, k - 1);
      assert FlipBit(x, k) / 2 == FlipBit(x / 2, k - 1);
    } else {
      assert FlipBit(x, 0) / 2 == x / 2;
      assert ShiftRight(FlipBit(x, 0), 1) == ShiftRight(FlipBit(x, 0) / 2, 0);
    }
  }

  /** Flipping the last bit of a prefix gives an address that shares every shorter one, but not this. */
  lemma OutsideSmallerBlock(width: nat, long: nat, short: nat, ip: nat)
    requires short < long <= width
    ensures var x := FlipBit(ip, width - long);
      && SamePrefix(width, short, x, ip) && !SamePrefix(width, long, x, ip)
      && ShiftRight(x, width) == ShiftRight(ip, width)
  {
    var x := FlipBit(ip, width - long);
    FlippedBitShows(ip, width - long);
    ShorterPrefix(width, long - 1, short, x, ip);
    ShorterPrefix(width, long - 1, 0, x, ip);
  }

  lemma ShiftByteIsDivision(x: nat)
    ensures ShiftRight(x, 8) == x / 0x100
  {
  }

  lemma ShiftWordIsDivision(x: nat)
    ensures ShiftRight(x, 32) == x / 0x1_0000_0000
  {
    ShiftTwice(x, 8, 24);
    ShiftTwice(x / 0x100, 8, 16);
    ShiftTwice(x / 0x100 / 0x100, 8, 8);
    ShiftByteIsDivision(x);
    ShiftByteIsDivision(x / 0x100);
    ShiftByteIsDivision(x / 0x100 / 0x100);
    ShiftByteIsDivision(x / 0x100 / 0x100 / 0x100);
  }

  lemma ShiftTwoWordsIsDivision(x: nat)
    ensures ShiftRight(x, 64) == x / 0x1_0000_0000_0000_0000
  {
    var w := 0x1_0000_0000;
    ShiftTwice(x, 32, 32);
    ShiftWordIsDivision(x);
    ShiftWordIsDivision(x / w);
  }

  /** The bits of an address, shifted by the width of its family, are gone. */
  lemma FitsWidth(x: nat)
    ensures ShiftRight(x, 32) == 0 <==> x < 0x1_0000_0000
    ensures ShiftRight(x, 128) == 0 <==> x < 0x1_0000_0000_0000_0000_0000_0000_0000_0000
  {
    ShiftWordIsDivision(x);
    ShiftTwice(x, 64, 64);
    ShiftTwoWordsIsDivision(x);
    ShiftTwoWordsIsDivision(x / 0x1_0000_0000_0000_0000);
  }

  /** Among networks that share an address, the order of prefix lengths is the order of inclusion. */
  lemma PrefixOrderIsInclusion(outer: IpNet, inner: IpNet, ip: IpAddr)
    requires ValidNet(outer) && ValidNet(inner) && Contains(outer, ip) && Contains(inner, ip)
    ensures PrefixLength(outer) <= PrefixLength(inner) <==> Includes(outer, inner)
  {
    var width, bits := if ip.V4? then 32 else 128, if ip.V4? then ip.v4 else ip.v6;
    if PrefixLength(outer) <= PrefixLength(inner) {
      forall other | Contains(inner, other) ensures Contains(outer, other) {
        var otherBits := if other.V4? then other.v4 else other.v6;
        ShorterPrefix(width, PrefixLength(inner), PrefixLength(outer), otherBits, bits);
      }
    } else {
      OutsideSmallerBlock(width, PrefixLength(outer), PrefixLength(inner), bits);
      var x := FlipBit(bits, width - PrefixLength(outer));
      FitsWidth(bits);
      FitsWidth(x);
      var other := if ip.V4? then V4(x) else V6(x);
      assert Contains(inner, other) && !Contains(outer, other);
    }
  }

  // ---------------------------------------------------------------------
  // The decision
  // ---------------------------------------------------------------------

  /** The longest match is the length of some matching rule, and no matching rule is longer. */
  lemma {:induction false} LongestMatchExactly(rules: seq<IpNet>, ip: IpAddr)
    requires ValidRules(rules)
    ensures LongestMatch(rules, ip).Some? <==> exists n :: n in rules && Contains(n, ip)
    ensures LongestMatch(rules, ip).Some? ==>
      exists n :: n in rules && Contains(n, ip) && PrefixLength(n) == LongestMatch(rules, ip).value
    ensures forall n :: n in rules && Contains(n, ip) ==>
      LongestMatch(rules, ip).Some? && PrefixLength(n) <= LongestMatch(rules, ip).value
    decreases |rules|
  {
    if rules != [] {
      LongestMatchExactly(rules[1..], ip);
      assert rules == [rules[0]] + rules[1..];
    }
  }

  /** The rule is the inclusion-smallest matching one, deny winning over an equal allow. */
  ghost predicate DeniedBySmallest(t: AccessControl, ip: IpAddr, d: IpNet)
    requires ValidTable(t)
  {
    d in t.deny && Contains(d, ip) && forall a :: a in t.allow && Contains(a, ip) ==> Includes(a, d)
  }

  /** `evaluate` gives the verdict of the smallest network that contains the address: it denies
      exactly if some matching deny network lies within every matching allow network, or if nothing
      matches and the default is to deny. */
  lemma EvaluateBySmallestNetwork(t: AccessControl, source: IpAddr)
    requires ValidTable(t)
    ensures var ip := Canonicalise(source);
      Evaluate(t, source) == Denied <==>
        || (exists d :: DeniedBySmallest(t, ip, d))
        || ((forall n :: n in t.allow + t.deny ==> !Contains(n, ip)) && !t.defaultAllow)
  {
    var ip := Canonicalise(source);
    LongestMatchExactly(t.allow, ip);
    LongestMatchExactly(t.deny, ip);
    var allow, deny := LongestMatch(t.allow, ip), LongestMatch(t.deny, ip);
    if deny.Some? && (allow.None? || deny.value >= allow.value) {
      var d :| d in t.deny && Contains(d, ip) && PrefixLength(d) == deny.value;
      forall a | a in t.allow && Contains(a, ip) ensures Includes(a, d) {
        PrefixOrderIsInclusion(a, d, ip);
      }
      assert DeniedBySmallest(t, ip, d);
    }
    if d :| DeniedBySmallest(t, ip, d) {
      if allow.Some? {
        var a :| a in t.allow && Contains(a, ip) && PrefixLength(a) == allow.value;
        PrefixOrderIsInclusion(a, d, ip);
      }
    }
    assert allow.Some? ==> exists n :: n in t.allow + t.deny && Contains(n, ip);
    assert deny.Some? ==> exists n :: n in t.allow + t.deny && Contains(n, ip);
  }

  lemma MatchDependsOnSet(rules: seq<IpNet>, other: seq<IpNet>, ip: IpAddr)
    requires ValidRules(rules) && ValidRules(other)
    requires forall n :: n in rules ==> n in other
    ensures LongestMatch(rules, ip).Some? ==>
      LongestMatch(other, ip).Some? && LongestMatch(rules, ip).value <= LongestMatch(other, ip).value
  {
    LongestMatchExactly(rules, ip);
    LongestMatchExactly(other, ip);
  }

  /** An IPv4-mapped IPv6 source is treated as the IPv4 address in its last 32 bits, and every other source
      as itself: under every table the former get the same verdict, and the latter match the rules that
      contain them. */
  lemma MappedSourcesAreV4(t: AccessControl, v4: v4bits, source: IpAddr)
    requires ValidTable(t)
    ensures Evaluate(t, V6(0xFFFF * 0x1_0000_0000 + v4)) == Evaluate(t, V4(v4))
    ensures Canonicalise(source) == source <==>
      source.V4? || source.v6 < 0xFFFF * 0x1_0000_0000 || source.v6 >= 0x1_0000 * 0x1_0000_0000
  {
    RemainderOf(0xFFFF * 0x1_0000_0000 + v4, 0x1_0000_0000, 0xFFFF, v4);
  }

  /** Order and repetition of rules do not matter. */
  lemma RuleOrderIsIrrelevant(t: AccessControl, u: AccessControl, source: IpAddr)
    requires ValidTable(t) && ValidTable(u) && t.defaultAllow == u.defaultAllow
    requires forall n :: n in t.allow <==> n in u.allow
    requires forall n :: n in t.deny <==> n in u.deny
    ensures Evaluate(t, source) == Evaluate(u, source)
  {
    var ip := Canonicalise(source);
    MatchDependsOnSet(t.allow, u.allow, ip);
    MatchDependsOnSet(u.allow, t.allow, ip);
    MatchDependsOnSet(t.deny, u.deny, ip);
    MatchDependsOnSet(u.deny, t.deny, ip);
  }

  /** More deny rules, wherever they are put, never admit anyone. */
  lemma DenyRulesOnlyDeny(t: AccessControl, u: AccessControl, source: IpAddr)
    requires ValidTable(t) && ValidTable(u) && t.defaultAllow == u.defaultAllow && t.allow == u.allow
    requires forall n :: n in t.deny ==> n in u.deny
    ensures Evaluate(t, source) == Denied ==> Evaluate(u, source) == Denied
  {
    MatchDependsOnSet(t.deny, u.deny, Canonicalise(source));
  }

  /** More allow rules never shut anyone out. */
  lemma AllowRulesOnlyAllow(t: AccessControl, u: AccessControl, source: IpAddr)
    requires ValidTable(t) && ValidTable(u) && t.defaultAllow == u.defaultAllow && t.deny == u.deny
    requires forall n :: n in t.allow ==> n in u.allow
    ensures Evaluate(t, source) == Permitted ==> Evaluate(u, source) == Permitted
  {
    MatchDependsOnSet(t.allow, u.allow, Canonicalise(source));
  }

  /** IPv4-mapped IPv6. */
  predicate Mapped(bits: nat) {
    bits / 0x1_0000_0000 == 0xFFFF
  }

  /** The rule applies to no source at all. */
  ghost predicate Dead(n: IpNet)
    requires ValidNet(n)
  {
    forall source :: !Contains(n, Canonicalise(source))
  }

  /** A rule for IPv4-mapped IPv6 addresses applies to nobody: such sources have become IPv4. */
  lemma MappedRuleIsDead(n: IpNet)
    requires n.V6Net? && 96 <= n.v6Length <= 128 && Mapped(n.v6)
    ensures Dead(n)
  {
    forall source ensures !Contains(n, Canonicalise(source)) {
      var ip := Canonicalise(source);
      if Contains(n, ip) {
        ShiftWordIsDivision(n.v6);
        ShiftWordIsDivision(ip.v6);
        ShorterPrefix(128, n.v6Length, 96, n.v6, ip.v6);
      }
    }
  }

  /** A prefix shorter than 96 bits around a mapped address also holds addresses that are not. */
  lemma ShortPrefixIsAlive(n: IpNet)
    requires n.V6Net? && n.v6Length < 96 && Mapped(n.v6)
    ensures !Dead(n)
  {
    var x := FlipBit(n.v6, 32);
    OutsideSmallerBlock(128, 96, n.v6Length, n.v6);
    FitsWidth(n.v6);
    FitsWidth(x);
    ShiftWordIsDivision(n.v6);
    ShiftWordIsDivision(x);
    assert Contains(n, Canonicalise(V6(x)));
  }

  /** Which rules are dead: exactly those within ::ffff:0:0/96. Every other one applies to someone. */
  lemma DeadRulesExactly(n: IpNet)
    requires ValidNet(n)
    ensures Dead(n) <==> n.V6Net? && n.v6Length >= 96 && Mapped(n.v6)
  {
    if n.V4Net? {
      assert Contains(n, Canonicalise(V4(n.v4)));
    } else if !Mapped(n.v6) {
      assert Contains(n, Canonicalise(V6(n.v6)));
    } else if n.v6Length < 96 {
      ShortPrefixIsAlive(n);
    } else {
      MappedRuleIsDead(n);
    }
  }
}
