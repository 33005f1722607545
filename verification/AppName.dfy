/** The application name every command-line connection carries, and its parser, which must
    survive Postgres cutting the name at 63 bytes. */
module AppName {
  import opened Prelude
  import opened Text

  const MAX_NAME_BYTES := 63
  const U32_LIMIT := 0x1_0000_0000

  datatype ClientTag = ClientTag(verb: string, pid: nat, host: string)

  // ---- Numbers ----

  function Digit(d: nat): char
    requires d < 10
  {
    ('0' as int + d) as char
  }

  function DigitValue(c: char): nat
    requires IsAsciiDigit(c)
  {
    c as int - '0' as int
  }

  function Decimal(n: nat): (s: string)
    ensures s != "" && forall i :: 0 <= i < |s| ==> IsAsciiDigit(s[i])
  {
    if n < 10 then [Digit(n)] else Decimal(n / 10) + [Digit(n % 10)]
  }

  function DigitsValue(s: string): Option<nat> {
    if s == "" then Some(0)
    else if !IsAsciiDigit(s[|s| - 1]) then None
    else
      match DigitsValue(s[..|s| - 1])
      case None => None
      case Some(v) => Some(10 * v + DigitValue(s[|s| - 1]))
  }

  /** `str::parse::<u32>`: digits after an optional plus sign, within range. */
  function ParseU32(s: string): Option<nat> {
    var digits := if StartsWith(s, "+") then s[1..] else s;
    if digits == "" then None
    else
      match DigitsValue(digits)
      case None => None
      case Some(v) => if v < U32_LIMIT then Some(v) else None
  }

  lemma {:induction false} DecimalValue(n: nat)
    ensures DigitsValue(Decimal(n)) == Some(n)
  {
    var s := Decimal(n);
    if n < 10 {
      assert s[..|s| - 1] == "" && s[|s| - 1] == Digit(n);
    } else {
      DecimalValue(n / 10);
      assert s[..|s| - 1] == Decimal(n / 10) && s[|s| - 1] == Digit(n % 10);
    }
  }

  lemma {:induction false} DecimalLength(n: nat, k: nat)
    requires k > 0 && n < Pow10(k)
    ensures |Decimal(n)| <= k
  {
    if n >= 10 {
      assert k > 1 by { assert Pow10(1) == 10 * Pow10(0); }
      DecimalLength(n / 10, k - 1);
    }
  }

  function Pow10(k: nat): nat { if k == 0 then 1 else 10 * Pow10(k - 1) }

  lemma ParseOfDecimal(pid: nat)
    requires pid < U32_LIMIT
    ensures ParseU32(Decimal(pid)) == Some(pid)
  {
    DecimalValue(pid);
    var s := Decimal(pid);
    assert s[..1][0] == s[0];
  }

  lemma U32HasTenDigits(pid: nat)
    requires pid < U32_LIMIT
    ensures |Decimal(pid)| <= 10
  {
    assert Pow10(5) == 100000;
    assert Pow10(10) == 100000 * Pow10(5);
    DecimalLength(pid, 10);
  }

  // ---- Printer and parser ----

  function ApplicationName(verb: string, pid: nat, host: string): string {
    "pg-web " + verb + " (pid=" + Decimal(pid) + ", host=" + host + ")"
  }

  function SplitOnce(s: string, pat: string): Option<(string, string)> {
    match Find(s, pat)
    case None => None
    case Some(i) => Some((s[..i], s[i + |pat|..]))
  }

  function ParseApplicationName(s: string): Option<ClientTag> {
    if !StartsWith(s, "pg-web ") then None
    else
      match SplitOnce(s[7..], " (")
      case None => None
      case Some((verb, rest)) =>
        var inner := if EndsWith(rest, ")") then rest[..|rest| - 1] else rest;
        if !StartsWith(inner, "pid=") then None
        else
          var afterPid := inner[4..];
          var (pidStr, host) := match SplitOnce(afterPid, ", host=") case Some(p) => p case None => (afterPid, "");
          match ParseU32(pidStr)
          case None => None
          case Some(pid) => Some(ClientTag(verb, pid, host))
  }

  /** The part of the name that identifies the process; the host follows. */
  function NamePrefix(verb: string, pid: nat): string {
    "pg-web " + verb + " (pid=" + Decimal(pid) + ", host="
  }

  function WithoutParen(t: string): string {
    if EndsWith(t, ")") then t[..|t| - 1] else t
  }

  lemma SplitOnceAtFirst(a: string, pat: string, b: string)
    requires forall k :: 0 <= k < |a| ==> !OccursAt(a + pat + b, pat, k)
    ensures SplitOnce(a + pat + b, pat) == Some((a, b))
  {
    var s := a + pat + b;
    assert s[|a|..|a| + |pat|] == pat;
    FindIs(s, pat, |a|);
    assert s[..|a|] == a && s[|a| + |pat|..] == b;
  }

  lemma VerbSplitsOff(verb: string, b: string)
    requires !Contains(verb, " (")
    ensures SplitOnce(verb + " (" + b, " (") == Some((verb, b))
  {
    var s := verb + " (" + b;
    forall k | 0 <= k < |verb| ensures !OccursAt(s, " (", k) {
      if k + 2 <= |verb| {
        assert s[k..k + 2] == verb[k..k + 2] && !OccursAt(verb, " (", k);
      } else {
        assert s[k + 1] == ' ';
        NoOccurrenceEnd(s, " (", k);
      }
    }
    SplitOnceAtFirst(verb, " (", b);
  }

  lemma PidSplitsOff(pid: nat, host: string)
    ensures SplitOnce(Decimal(pid) + ", host=" + host, ", host=") == Some((Decimal(pid), host))
  {
    var d := Decimal(pid);
    var s := d + ", host=" + host;
    forall k | 0 <= k < |d| ensures !OccursAt(s, ", host=", k) {
      if k + 7 <= |s| { assert s[k..k + 7][0] == d[k]; }
    }
    SplitOnceAtFirst(d, ", host=", host);
  }

  /** Whatever follows "host=", the verb and the process id are recovered, and the host is what
      follows without a final parenthesis. */
  lemma ParseAnyTail(verb: string, pid: nat, t: string)
    requires !Contains(verb, " (") && pid < U32_LIMIT
    ensures ParseApplicationName(NamePrefix(verb, pid) + t) == Some(ClientTag(verb, pid, WithoutParen(t)))
  {
    var s := NamePrefix(verb, pid) + t;
    var rest := "pid=" + Decimal(pid) + ", host=" + t;
    var host := WithoutParen(t);
    var inner := "pid=" + Decimal(pid) + ", host=" + host;
    NameSplits(verb, pid, t);
    VerbSplitsOff(verb, rest);
    TailParen(pid, t);
    InnerSplits(pid, host);
    PidSplitsOff(pid, host);
    ParseOfDecimal(pid);
    ParsedParts(s, verb, rest, inner, pid, host);
  }

  lemma NameSplits(verb: string, pid: nat, t: string)
    ensures var s := NamePrefix(verb, pid) + t;
            StartsWith(s, "pg-web ") && s[7..] == verb + " (" + ("pid=" + Decimal(pid) + ", host=" + t)
  {
    var s := NamePrefix(verb, pid) + t;
    assert s == "pg-web " + (verb + " (" + ("pid=" + Decimal(pid) + ", host=" + t));
  }

  lemma InnerSplits(pid: nat, host: string)
    ensures var inner := "pid=" + Decimal(pid) + ", host=" + host;
            StartsWith(inner, "pid=") && inner[4..] == Decimal(pid) + ", host=" + host
  {
    var inner := "pid=" + Decimal(pid) + ", host=" + host;
    assert inner == "pid=" + (Decimal(pid) + ", host=" + host);
  }

  lemma ParsedParts(s: string, verb: string, rest: string, inner: string, pid: nat, host: string)
    requires StartsWith(s, "pg-web ") && SplitOnce(s[7..], " (") == Some((verb, rest)) && inner == WithoutParen(rest)
    requires StartsWith(inner, "pid=") && SplitOnce(inner[4..], ", host=") == Some((Decimal(pid), host))
    requires ParseU32(Decimal(pid)) == Some(pid)
    ensures ParseApplicationName(s) == Some(ClientTag(verb, pid, host))
  {
  }

  lemma TailParen(pid: nat, t: string)
    ensures WithoutParen("pid=" + Decimal(pid) + ", host=" + t) == "pid=" + (Decimal(pid) + ", host=" + WithoutParen(t))
  {
    var front := "pid=" + Decimal(pid) + ", host=";
    var rest := front + t;
    assert front + WithoutParen(t) == "pid=" + (Decimal(pid) + ", host=" + WithoutParen(t));
    if t == "" {
      assert rest == front && rest[|rest| - 1..][0] == '=';
    } else {
      assert rest[|rest| - 1..] == t[|t| - 1..];
      assert rest[..|rest| - 1] == front + t[..|t| - 1];
    }
  }

  /** The untruncated name round-trips, for every process id and host, iff the verb does not
      contain the delimiter. */
  lemma RoundTripIffVerbIsPlain(verb: string, pid: nat, host: string)
    requires pid < U32_LIMIT
    ensures ParseApplicationName(ApplicationName(verb, pid, host)) == Some(ClientTag(verb, pid, host))
            <==> !Contains(verb, " (")
  {
    var s := ApplicationName(verb, pid, host);
    if Contains(verb, " (") {
      var i :| 0 <= i <= |verb| && OccursAt(verb, " (", i);
      assert s == "pg-web " + verb + (" (pid=" + Decimal(pid) + ", host=" + host + ")");
      assert s[7..][..|verb|] == verb;
      assert s[7..][i..i + 2] == verb[i..i + 2];
      assert OccursAt(s[7..], " (", i);
      assert SplitOnce(s[7..], " (").Some? && |SplitOnce(s[7..], " (").value.0| < |verb|;
    } else {
      assert s == NamePrefix(verb, pid) + (host + ")");
      ParseAnyTail(verb, pid, host + ")");
      assert (host + ")")[|host|..] == ")" && (host + ")")[..|host|] == host;
    }
  }

  /** Postgres keeps the first 63 bytes. */
  function Truncate(name: string): string
    requires IsAscii(name)
  {
    if |name| <= MAX_NAME_BYTES then name else name[..MAX_NAME_BYTES]
  }

  lemma NameIsAscii(verb: string, pid: nat, host: string)
    requires IsAscii(verb) && IsAscii(host)
    ensures IsAscii(ApplicationName(verb, pid, host))
  {
  }

  /** After truncation the verb and the process id still come back exactly, and the host as a
      prefix: all of it when the name fits. */
  lemma TruncationKeepsVerbAndPid(verb: string, pid: nat, host: string)
    requires IsAscii(verb) && IsAscii(host) && !Contains(verb, " (") && |verb| <= 33 && pid < U32_LIMIT
    ensures IsAscii(ApplicationName(verb, pid, host))
    ensures var tag := ParseApplicationName(Truncate(ApplicationName(verb, pid, host)));
            tag.Some? && tag.value.verb == verb && tag.value.pid == pid && tag.value.host <= host
            && (|ApplicationName(verb, pid, host)| <= 63 ==> tag.value.host == host)
  {
    NameIsAscii(verb, pid, host);
    U32HasTenDigits(pid);
    var front := NamePrefix(verb, pid);
    var n := if |front| + |host| < MAX_NAME_BYTES then |host| + 1 else MAX_NAME_BYTES - |front|;
    NameIsPrefixAndHost(verb, pid, host);
    TruncateAfter(front, host + ")", n);
    ParseAnyTail(verb, pid, (host + ")")[..n]);
    CutHost(host, n);
  }

  lemma NameIsPrefixAndHost(verb: string, pid: nat, host: string)
    ensures ApplicationName(verb, pid, host) == NamePrefix(verb, pid) + (host + ")")
  {
  }

  lemma TruncateAfter(front: string, back: string, n: nat)
    requires |front| <= MAX_NAME_BYTES && IsAscii(front + back)
    requires n == if |front| + |back| <= MAX_NAME_BYTES then |back| else MAX_NAME_BYTES - |front|
    ensures Truncate(front + back) == front + back[..n]
  {
  }

  lemma CutHost(host: string, n: nat)
    requires n <= |host| + 1
    ensures WithoutParen((host + ")")[..n]) <= host && (n == |host| + 1 ==> WithoutParen((host + ")")[..n]) == host)
  {
    var t := (host + ")")[..n];
    if n == |host| + 1 {
      assert t == host + ")" && t[|t| - 1..] == ")";
    } else {
      assert t == host[..n];
    }
  }

  /** The verbs the tool passes to `connect`. */
  const VERBS := ["push", "dev", "migrate", "env", "check", "stack", "diag"]

  /** Whatever the tool connects for, the server can tell for what and from which process. */
  lemma ToolNamesSurviveTruncation(verb: string, pid: nat, host: string)
    requires verb in VERBS && IsAscii(host) && pid < U32_LIMIT
    ensures IsAscii(ApplicationName(verb, pid, host))
    ensures var tag := ParseApplicationName(Truncate(ApplicationName(verb, pid, host)));
            tag.Some? && tag.value.verb == verb && tag.value.pid == pid && tag.value.host <= host
            && (|ApplicationName(verb, pid, host)| <= 63 ==> tag.value.host == host)
  {
    VerbsFit(verb);
    TruncationKeepsVerbAndPid(verb, pid, host);
  }

  lemma VerbsFit(v: string)
    requires v in VERBS
    ensures !Contains(v, " (") && |v| <= 33 && IsAscii(v)
  {
    assert '(' !in v;
    forall k | 0 <= k <= |v| ensures !OccursAt(v, " (", k) {
      if k + 2 <= |v| { NoOccurrenceEnd(v, " (", k); }
    }
  }
}
