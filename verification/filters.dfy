/** Capture filter builders: Berkeley Packet Filter expressions selecting
    one conversation (both endpoints and ports) or one service (two hosts
    and a port). The protocol name is lower-cased; addresses and ports are
    written as given. A small reader recovers the fields from a built
    filter, which shows that nothing is lost in the text. */
module Filters {
  import opened Common

  // ---------------------------------------------------------------------
  // Lower-casing

  function LowerChar(c: char): char {
    if 'A' <= c <= 'Z' then (c as int - 'A' as int + 'a' as int) as char else c
  }

  predicate IsUpper(c: char) {
    'A' <= c <= 'Z'
  }

  /** The lower-case form of a string: upper-case ASCII letters become
      lower-case, every other character is kept. */
  function LowerAscii(s: string): (r: string)
    ensures |r| == |s|
    ensures forall i :: 0 <= i < |s| ==> !IsUpper(r[i])
    ensures forall i :: 0 <= i < |s| && !IsUpper(s[i]) ==> r[i] == s[i]
    ensures forall i :: 0 <= i < |s| && IsUpper(s[i]) ==> r[i] as int == s[i] as int + 32
  {
    if s == [] then [] else LowerAscii(s[..|s| - 1]) + [LowerChar(s[|s| - 1])]
  }

  /** Each character of the lower-case form is its character lower-cased. */
  lemma LowerAt(s: string, i: nat)
    requires i < |s|
    ensures LowerAscii(s)[i] == LowerChar(s[i])
  {
    var r := LowerAscii(s);
    if IsUpper(s[i]) {
      assert r[i] as int == LowerChar(s[i]) as int;
    }
  }

  /** Lower-casing a string is the string of its lower-cased characters. */
  lemma LowerIs(s: string, t: string)
    requires |s| == |t|
    requires forall i :: 0 <= i < |s| ==> LowerChar(s[i]) == t[i]
    ensures LowerAscii(s) == t
  {
    forall i | 0 <= i < |s| ensures LowerAscii(s)[i] == t[i] {
      LowerAt(s, i);
    }
  }

  /** Lower-casing twice is lower-casing once. */
  lemma LowerIdempotent(s: string)
    ensures LowerAscii(LowerAscii(s)) == LowerAscii(s)
  {
    var l := LowerAscii(s);
    forall i | 0 <= i < |l| ensures LowerChar(l[i]) == l[i] {
      assert !IsUpper(l[i]);
    }
    LowerIs(l, l);
  }

  /** Two spellings that differ only in letter case lower-case alike. */
  lemma LowerCaseInsensitive(s: string, t: string)
    requires |s| == |t|
    requires forall i :: 0 <= i < |s| ==> LowerChar(s[i]) == LowerChar(t[i])
    ensures LowerAscii(s) == LowerAscii(t)
  {
    forall i | 0 <= i < |s| ensures LowerChar(s[i]) == LowerAscii(t)[i] {
      LowerAt(t, i);
    }
    LowerIs(s, LowerAscii(t));
  }

  // ---------------------------------------------------------------------
  // Decimal text of an integer, as an f-string writes it

  predicate IsDigit(c: char) {
    '0' <= c <= '9'
  }

  function DigitChar(d: nat): char
    requires d < 10
  {
    ('0' as int + d) as char
  }

  function DigitValue(c: char): nat
    requires IsDigit(c)
  {
    c as int - '0' as int
  }

  /** The decimal digits of a natural number, most significant first, with
      no leading zero. */
  function NatToDigits(n: nat): (r: string)
    ensures r != [] && forall i :: 0 <= i < |r| ==> IsDigit(r[i])
    ensures |r| > 1 ==> r[0] != '0'
  {
    if n < 10 then [DigitChar(n)] else NatToDigits(n / 10) + [DigitChar(n % 10)]
  }

  /** The decimal text of an integer: a minus sign before a negative one. */
  function IntToString(n: int): (r: string)
    ensures r != [] && (r[0] == '-' <==> n < 0)
    ensures forall i :: 0 <= i < |r| ==> IsDigit(r[i]) || (i == 0 && r[i] == '-')
  {
    if n < 0 then "-" + NatToDigits(-n) else NatToDigits(n)
  }

  /** The value of a string of decimal digits. */
  function DigitsValue(s: string): nat
    requires forall i :: 0 <= i < |s| ==> IsDigit(s[i])
  {
    if s == [] then 0 else DigitsValue(s[..|s| - 1]) * 10 + DigitValue(s[|s| - 1])
  }

  /** Reads decimal text back: an optional minus sign, then at least one
      digit and nothing else. */
  function ParseInt(s: string): (r: Option<int>)
    ensures r.Some? ==> s != []
  {
    if s != [] && s[0] == '-' then
      var d := s[1..];
      if d != [] && forall i :: 0 <= i < |d| ==> IsDigit(d[i]) then Some(-(DigitsValue(d) as int)) else None
    else if s != [] && forall i :: 0 <= i < |s| ==> IsDigit(s[i]) then Some(DigitsValue(s) as int)
    else None
  }

  lemma {:induction false} DigitsRoundTrip(n: nat)
    ensures DigitsValue(NatToDigits(n)) == n
  {
    if n >= 10 {
      var d := NatToDigits(n);
      assert d[..|d| - 1] == NatToDigits(n / 10);
      DigitsRoundTrip(n / 10);
    }
  }

  /** Every integer's text reads back as that integer. */
  lemma IntRoundTrip(n: int)
    ensures ParseInt(IntToString(n)) == Some(n)
  {
    if n < 0 {
      DigitsRoundTrip(-n);
      assert IntToString(n)[1..] == NatToDigits(-n);
    } else {
      DigitsRoundTrip(n);
    }
  }

  // ---------------------------------------------------------------------
  // The builders

  /** The conversation filter: the protocol, then the source host and port,
      then the destination host and port, each pair parenthesised. */
  function FiveTupleBpf(srcIp: string, srcPort: int, dstIp: string, dstPort: int, proto: string := "tcp"): (r: string)
    ensures |r| == |proto| + |srcIp| + |dstIp| + |IntToString(srcPort)| + |IntToString(dstPort)| + 44
    ensures r[..|proto|] == LowerAscii(proto)
    ensures r[|r| - |IntToString(dstPort)| - 1..] == IntToString(dstPort) + ")"
  {
    LowerAscii(proto) + " and (host " + srcIp + " and port " + IntToString(srcPort)
      + ") and (host " + dstIp + " and port " + IntToString(dstPort) + ")"
  }

  /** The service filter: the protocol, both hosts, then the port. */
  function ServiceBpf(hostA: string, hostB: string, port: int, proto: string := "tcp"): (r: string)
    ensures |r| == |proto| + |hostA| + |hostB| + |IntToString(port)| + 30
    ensures r[..|proto|] == LowerAscii(proto)
    ensures r[|r| - |IntToString(port)|..] == IntToString(port)
  {
    LowerAscii(proto) + " and host " + hostA + " and host " + hostB + " and port " + IntToString(port)
  }

  // ---------------------------------------------------------------------
  // Reading a filter back

  datatype ConversationFilter = ConversationFilter(proto: string, srcIp: string, srcPort: int, dstIp: string, dstPort: int)
  datatype ServiceFilter = ServiceFilter(proto: string, hostA: string, hostB: string, port: int)

  /** The text before the first `sep`, and the text after it; nothing when
      `sep` does not occur. */
  function Until(sep: char, s: string): (r: Option<(string, string)>)
    ensures r.Some? ==> sep !in r.value.0 && s == r.value.0 + [sep] + r.value.1
    ensures r.None? ==> sep !in s
  {
    if s == [] then None
    else if s[0] == sep then Some(([], s[1..]))
    else match Until(sep, s[1..])
      case None => None
      case Some((w, rest)) => Some(([s[0]] + w, rest))
  }

  /** The text after the literal `lit`, when `s` starts with it. */
  function After(lit: string, s: string): (r: Option<string>)
    ensures r.Some? <==> lit <= s
    ensures r.Some? ==> s == lit + r.value
  {
    if lit <= s then Some(s[|lit|..]) else None
  }

  /** One field of a filter: the text up to `sep`, which must be followed
      by the literal `lit`; the rest of the text after that. */
  function Token(sep: char, lit: string, s: string): (r: Option<(string, string)>)
    ensures r.Some? ==> sep !in r.value.0 && s == r.value.0 + [sep] + lit + r.value.1
  {
    match Until(sep, s)
    case None => None
    case Some((w, rest)) =>
      match After(lit, rest)
      case None => None
      case Some(tail) => Some((w, tail))
  }

  lemma {:induction false} UntilSplits(sep: char, w: string, rest: string)
    requires sep !in w
    ensures Until(sep, w + [sep] + rest) == Some((w, rest))
  {
    if w != [] {
      assert (w + [sep] + rest)[1..] == w[1..] + [sep] + rest;
      UntilSplits(sep, w[1..], rest);
      assert [w[0]] + w[1..] == w;
    }
  }

  /** A field free of its separator reads back whole. */
  lemma TokenReads(sep: char, lit: string, w: string, rest: string)
    requires sep !in w
    ensures Token(sep, lit, w + [sep] + lit + rest) == Some((w, rest))
  {
    assert w + [sep] + lit + rest == w + [sep] + (lit + rest);
    UntilSplits(sep, w, lit + rest);
    assert (lit + rest)[|lit|..] == rest;
  }

  /** Reads a conversation filter into its fields. */
  function ParseFiveTuple(f: string): Option<ConversationFilter> {
    match Token(' ', "and (host ", f)
    case None => None
    case Some((p, r1)) =>
      match Token(' ', "and port ", r1)
      case None => None
      case Some((src, r2)) =>
        match Token(')', " and (host ", r2)
        case None => None
        case Some((sp, r3)) =>
          match Token(' ', "and port ", r3)
          case None => None
          case Some((dst, r4)) =>
            match Token(')', "", r4)
            case None => None
            case Some((dp, r5)) =>
              if r5 != [] then None
              else match (ParseInt(sp), ParseInt(dp))
                case (Some(s), Some(d)) => Some(ConversationFilter(p, src, s, dst, d))
                case _ => None
  }

  /** Reads a service filter into its fields. */
  function ParseService(f: string): Option<ServiceFilter> {
    match Token(' ', "and host ", f)
    case None => None
    case Some((p, r1)) =>
      match Token(' ', "and host ", r1)
      case None => None
      case Some((a, r2)) =>
        match Token(' ', "and port ", r2)
        case None => None
        case Some((b, r3)) =>
          match ParseInt(r3)
          case None => None
          case Some(port) => Some(ServiceFilter(p, a, b, port))
  }

  lemma ServiceShape(p: string, a: string, b: string, pt: string)
    ensures p + " and host " + a + " and host " + b + " and port " + pt
         == p + [' '] + "and host " + (a + [' '] + "and host " + (b + [' '] + "and port " + pt))
  {
  }

  lemma FiveTupleShape(p: string, src: string, sp: string, dst: string, dp: string)
    ensures p + " and (host " + src + " and port " + sp + ") and (host " + dst + " and port " + dp + ")"
         == p + [' '] + "and (host " + (src + [' '] + "and port " + (sp + [')'] + " and (host "
            + (dst + [' '] + "and port " + (dp + [')'] + "" + []))))
  {
    var t1 := dp + ")";
    assert t1 == dp + [')'] + "" + [];
    var t2 := dst + " and port " + t1;
    assert t2 == dst + [' '] + "and port " + t1;
    var t3 := sp + ") and (host " + t2;
    assert t3 == sp + [')'] + " and (host " + t2;
    var t4 := src + " and port " + t3;
    assert t4 == src + [' '] + "and port " + t3;
    assert p + " and (host " + src + " and port " + sp + ") and (host " + dst + " and port " + dp + ")"
        == p + " and (host " + t4;
  }

  /** The service filter as its fields, each followed by its separator and
      the literal that comes next. */
  lemma ServiceText(hostA: string, hostB: string, port: int, proto: string)
    ensures ServiceBpf(hostA, hostB, port, proto)
         == LowerAscii(proto) + [' '] + "and host " + (hostA + [' '] + "and host " + (hostB + [' '] + "and port " + IntToString(port)))
  {
    ServiceShape(LowerAscii(proto), hostA, hostB, IntToString(port));
  }

  /** The conversation filter as its fields, each followed by its separator
      and the literal that comes next. */
  lemma FiveTupleText(srcIp: string, srcPort: int, dstIp: string, dstPort: int, proto: string)
    ensures FiveTupleBpf(srcIp, srcPort, dstIp, dstPort, proto)
         == LowerAscii(proto) + [' '] + "and (host " + (srcIp + [' '] + "and port " + (IntToString(srcPort) + [')'] + " and (host "
            + (dstIp + [' '] + "and port " + (IntToString(dstPort) + [')'] + "" + []))))
  {
    FiveTupleShape(LowerAscii(proto), srcIp, IntToString(srcPort), dstIp, IntToString(dstPort));
  }

  /** A service filter whose fields read one by one reads as those fields. */
  lemma ServiceReads(f: string, p: string, r1: string, a: string, r2: string, b: string, r3: string, port: int)
    requires Token(' ', "and host ", f) == Some((p, r1))
    requires Token(' ', "and host ", r1) == Some((a, r2))
    requires Token(' ', "and port ", r2) == Some((b, r3))
    requires ParseInt(r3) == Some(port)
    ensures ParseService(f) == Some(ServiceFilter(p, a, b, port))
  {
  }

  /** A conversation filter whose fields read one by one reads as those
      fields. */
  lemma FiveTupleReads(f: string, p: string, r1: string, src: string, r2: string, sp: string, r3: string,
                       dst: string, r4: string, dp: string, s: int, d: int)
    requires Token(' ', "and (host ", f) == Some((p, r1))
    requires Token(' ', "and port ", r1) == Some((src, r2))
    requires Token(')', " and (host ", r2) == Some((sp, r3))
    requires Token(' ', "and port ", r3) == Some((dst, r4))
    requires Token(')', "", r4) == Some((dp, []))
    requires ParseInt(sp) == Some(s) && ParseInt(dp) == Some(d)
    ensures ParseFiveTuple(f) == Some(ConversationFilter(p, src, s, dst, d))
  {
  }

  lemma NoSpaceInLower(s: string)
    requires ' ' !in s
    ensures ' ' !in LowerAscii(s)
  {
    var l := LowerAscii(s);
    forall i | 0 <= i < |l| ensures l[i] != ' ' {
      assert s[i] != ' ';
    }
  }

  lemma IntTextHasNoSeparator(n: int, c: char)
    requires c == ' ' || c == ')'
    ensures c !in IntToString(n)
  {
  }

  /** A conversation filter over space-free addresses and protocol reads
      back as the lower-cased protocol and the given endpoints. */
  lemma FiveTupleRoundTrip(srcIp: string, srcPort: int, dstIp: string, dstPort: int, proto: string)
    requires ' ' !in proto && ' ' !in srcIp && ' ' !in dstIp
    ensures ParseFiveTuple(FiveTupleBpf(srcIp, srcPort, dstIp, dstPort, proto))
         == Some(ConversationFilter(LowerAscii(proto), srcIp, srcPort, dstIp, dstPort))
  {
    var p, sp, dp := LowerAscii(proto), IntToString(srcPort), IntToString(dstPort);
    NoSpaceInLower(proto);
    IntTextHasNoSeparator(srcPort, ')');
    IntTextHasNoSeparator(dstPort, ')');
    IntRoundTrip(srcPort);
    IntRoundTrip(dstPort);
    var r5: string := [];
    var r4 := dp + [')'] + "" + r5;
    var r3 := dstIp + [' '] + "and port " + r4;
    var r2 := sp + [')'] + " and (host " + r3;
    var r1 := srcIp + [' '] + "and port " + r2;
    var f := p + [' '] + "and (host " + r1;
    FiveTupleText(srcIp, srcPort, dstIp, dstPort, proto);
    TokenReads(' ', "and (host ", p, r1);
    TokenReads(' ', "and port ", srcIp, r2);
    TokenReads(')', " and (host ", sp, r3);
    TokenReads(' ', "and port ", dstIp, r4);
    TokenReads(')', "", dp, r5);
    FiveTupleReads(f, p, r1, srcIp, r2, sp, r3, dstIp, r4, dp, srcPort, dstPort);
  }

  /** A service filter over space-free hosts and protocol reads back as the
      lower-cased protocol, the two hosts and the port. */
  lemma ServiceRoundTrip(hostA: string, hostB: string, port: int, proto: string)
    requires ' ' !in proto && ' ' !in hostA && ' ' !in hostB
    ensures ParseService(ServiceBpf(hostA, hostB, port, proto))
         == Some(ServiceFilter(LowerAscii(proto), hostA, hostB, port))
  {
    var p, pt := LowerAscii(proto), IntToString(port);
    NoSpaceInLower(proto);
    IntRoundTrip(port);
    var r3 := pt;
    var r2 := hostB + [' '] + "and port " + r3;
    var r1 := hostA + [' '] + "and host " + r2;
    var f := p + [' '] + "and host " + r1;
    ServiceText(hostA, hostB, port, proto);
    TokenReads(' ', "and host ", p, r1);
    TokenReads(' ', "and host ", hostA, r2);
    TokenReads(' ', "and port ", hostB, r3);
    ServiceReads(f, p, r1, hostA, r2, hostB, r3, port);
  }

  /** The protocol is matched without regard to case: two spellings that
      differ only in letter case give the same filters. */
  lemma ProtocolCaseInsensitive(p: string, q: string, srcIp: string, srcPort: int, dstIp: string, dstPort: int, port: int)
    requires |p| == |q|
    requires forall i :: 0 <= i < |p| ==> LowerChar(p[i]) == LowerChar(q[i])
    ensures FiveTupleBpf(srcIp, srcPort, dstIp, dstPort, p) == FiveTupleBpf(srcIp, srcPort, dstIp, dstPort, q)
    ensures ServiceBpf(srcIp, dstIp, port, p) == ServiceBpf(srcIp, dstIp, port, q)
  {
    LowerCaseInsensitive(p, q);
  }

  /** "TCP" gives the same filters as the default "tcp". */
  lemma UpperCaseDefault(srcIp: string, srcPort: int, dstIp: string, dstPort: int, port: int)
    ensures FiveTupleBpf(srcIp, srcPort, dstIp, dstPort, "TCP") == FiveTupleBpf(srcIp, srcPort, dstIp, dstPort)
    ensures ServiceBpf(srcIp, dstIp, port, "TCP") == ServiceBpf(srcIp, dstIp, port)
  {
    ProtocolCaseInsensitive("TCP", "tcp", srcIp, srcPort, dstIp, dstPort, port);
  }
}
