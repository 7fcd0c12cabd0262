/**
 SSH target addresses: `[user@]host[:port]`, with brackets round hosts that contain
 colons.  The `ssh://` form is handed to a URL parser, which is a parameter here.
 */
module SshTarget {
  import opened Common

  type Port = p: nat | p < 0x1_0000

  datatype Target = Target(username: Option<string>, hostname: string, port: Option<Port>)

  datatype ParseError = Empty | EmptyHostname | InvalidHostname | InvalidPort | InvalidUrl

  type Parsed = Result<Target, ParseError>

  const URL_PREFIX := "ssh://"

  // ── Characters ─────────────────────────────────────────────────────────────

  /** Unicode White_Space. */
  predicate IsWhitespace(c: char) {
    var n := c as int;
    || 9 <= n <= 13 || n == 0x20 || n == 0x85 || n == 0xA0 || n == 0x1680 || 0x2000 <= n <= 0x200A
    || n == 0x2028 || n == 0x2029 || n == 0x202F || n == 0x205F || n == 0x3000
  }

  /** Unicode general category Cc. */
  predicate IsControl(c: char) {
    c as int < 0x20 || 0x7F <= c as int < 0xA0
  }

  predicate IsDigit(c: char) {
    '0' <= c <= '9'
  }

  predicate IsLabelChar(c: char) {
    IsDigit(c) || 'a' <= c <= 'z' || 'A' <= c <= 'Z' || c == '-' || c == '_'
  }

  function Utf8Length(s: string): nat {
    if s == "" then 0
    else
      var n := s[0] as int;
      (if n < 0x80 then 1 else if n < 0x800 then 2 else if n < 0x1_0000 then 3 else 4) + Utf8Length(s[1..])
  }

  // ── Searching and trimming ─────────────────────────────────────────────────

  function Find(s: string, c: char): (r: Option<nat>)
    ensures match r
      case Some(i) => i < |s| && s[i] == c && c !in s[..i]
      case None => c !in s
  {
    if s == "" then None
    else if s[0] == c then Some(0)
    else
      match Find(s[1..], c)
      case None => None
      case Some(i) => assert s[..i + 1] == [s[0]] + s[1..][..i]; Some(i + 1)
  }

  function FindLast(s: string, c: char): (r: Option<nat>)
    ensures match r
      case Some(i) => i < |s| && s[i] == c && c !in s[i + 1..]
      case None => c !in s
  {
    if s == "" then None
    else if s[|s| - 1] == c then Some(|s| - 1)
    else
      assert s == s[..|s| - 1] + [s[|s| - 1]];
      match FindLast(s[..|s| - 1], c)
      case None => None
      case Some(i) => assert s[i + 1..] == s[..|s| - 1][i + 1..] + [s[|s| - 1]]; Some(i)
  }

  function Count(s: string, c: char): nat {
    if s == "" then 0 else (if s[0] == c then 1 else 0) + Count(s[1..], c)
  }

  function TrimStart(s: string): string {
    if s != "" && IsWhitespace(s[0]) then TrimStart(s[1..]) else s
  }

  function TrimEnd(s: string): string {
    if s != "" && IsWhitespace(s[|s| - 1]) then TrimEnd(s[..|s| - 1]) else s
  }

  function Trim(s: string): string {
    TrimEnd(TrimStart(s))
  }

  // ── Ports ──────────────────────────────────────────────────────────────────

  predicate AllDigits(s: string) {
    forall i :: 0 <= i < |s| ==> IsDigit(s[i])
  }

  function Value(digits: string): nat
    requires AllDigits(digits)
  {
    if digits == "" then 0
    else
      var last := digits[|digits| - 1];
      10 * Value(digits[..|digits| - 1]) + (last as int - '0' as int)
  }

  function Decimal(n: nat): (r: string)
    ensures r != "" && AllDigits(r)
  {
    if n < 10 then [('0' as int + n) as char] else Decimal(n / 10) + [('0' as int + n % 10) as char]
  }

  function WithoutPlus(s: string): string {
    if |s| > 1 && s[0] == '+' then s[1..] else s
  }

  /** Reading a 16-bit number: one leading plus sign and leading zeros are fine. */
  function ParsePort(s: string): Result<Port, ParseError> {
    var digits := WithoutPlus(s);
    if digits == "" || !AllDigits(digits) then Err(InvalidPort)
    else if Value(digits) >= 0x1_0000 then Err(InvalidPort)
    else Ok(Value(digits))
  }

  lemma {:induction false} DecimalReadsBack(n: nat)
    ensures Value(Decimal(n)) == n
  {
    if n >= 10 {
      DecimalReadsBack(n / 10);
      var last := [('0' as int + n % 10) as char];
      assert (Decimal(n / 10) + last)[..|Decimal(n / 10)|] == Decimal(n / 10);
    }
  }

  lemma PortReadsBack(p: Port)
    ensures ParsePort(Decimal(p)) == Ok(p)
  {
    DecimalReadsBack(p);
    assert IsDigit(Decimal(p)[0]);
  }

  // ── Hostnames ──────────────────────────────────────────────────────────────

  function Labels(s: string): seq<string>
    decreases |s|
  {
    match Find(s, '.')
    case None => [s]
    case Some(i) => [s[..i]] + Labels(s[i + 1..])
  }

  predicate LabelOk(l: string) {
    l == "" ||
    (&& Utf8Length(l) <= 63
     && l[0] != '-' && l[|l| - 1] != '-'
     && forall c :: c in l ==> IsLabelChar(c))
  }

  function ValidateHostname(h: string): Result<(), ParseError> {
    if h == "" then Err(EmptyHostname)
    else if exists c :: c in h && (IsWhitespace(c) || IsControl(c)) then Err(InvalidHostname)
    else if Utf8Length(h) > 253 then Err(InvalidHostname)
    else if ':' in h then Ok(())
    else if forall c :: c in h ==> IsDigit(c) || c == '.' then Ok(())
    else if forall l :: l in Labels(h) ==> LabelOk(l) then Ok(())
    else Err(InvalidHostname)
  }

  lemma {:induction false} CharInSomeLabel(s: string, c: char)
    requires c in s && c != '.'
    ensures exists l :: l in Labels(s) && c in l
    decreases |s|
  {
    match Find(s, '.')
    case None =>
      assert s in Labels(s);
    case Some(i) =>
      assert s == s[..i] + ['.'] + s[i + 1..];
      if c in s[..i] {
        assert Labels(s)[0] == s[..i];
        assert s[..i] in Labels(s);
      } else {
        CharInSomeLabel(s[i + 1..], c);
        var l :| l in Labels(s[i + 1..]) && c in l;
        assert l in Labels(s);
      }
  }

  /** An accepted host without a colon is made of label characters and dots. */
  lemma PlainHostChars(h: string)
    requires ValidateHostname(h).Ok? && ':' !in h
    ensures forall c :: c in h ==> IsLabelChar(c) || c == '.'
  {
    forall c | c in h && c != '.' ensures IsLabelChar(c) {
      CharInSomeLabel(h, c);
    }
  }

  // ── Printing and parsing ───────────────────────────────────────────────────

  function PrintHost(h: string): string {
    if ':' in h then "[" + h + "]" else h
  }

  function PrintPort(port: Option<Port>): string {
    match port
    case Some(p) => ":" + Decimal(p)
    case None => ""
  }

  function PrintHostPort(h: string, port: Option<Port>): string {
    PrintHost(h) + PrintPort(port)
  }

  function Print(t: Target): string {
    (match t.username case Some(u) => u + "@" case None => "") + PrintHostPort(t.hostname, t.port)
  }

  function FindUserAt(s: string): Option<nat> {
    if s != "" && s[0] == '[' then None else Find(s, '@')
  }

  function ParseAfterBracket(host: string, rest: string): Result<(string, Option<Port>), ParseError> {
    if rest == "" then Ok((host, None))
    else if rest[0] != ':' then Err(InvalidUrl)
    else if rest == ":" then Err(InvalidPort)
    else
      match ParsePort(rest[1..])
      case Ok(port) => Ok((host, Some(port)))
      case Err(e) => Err(e)
  }

  function ParseHostPort(s: string): Result<(string, Option<Port>), ParseError> {
    if s != "" && s[0] == '[' then
      match Find(s, ']')
      case None => Err(InvalidUrl)
      case Some(close) => ParseAfterBracket(s[1..close], s[close + 1..])
    else if Count(s, ':') == 1 then
      match FindLast(s, ':')
      case None => Ok((s, None))
      case Some(i) =>
        match ParsePort(s[i + 1..])
        case Ok(port) => Ok((s[..i], Some(port)))
        case Err(e) => Err(e)
    else Ok((s, None))
  }

  /** The host part and the user in front of it; an empty user counts as none. */
  function SplitUser(s: string): (Option<string>, string) {
    match FindUserAt(s)
    case None => (None, s)
    case Some(at) => (if at == 0 then None else Some(s[..at]), s[at + 1..])
  }

  function ParsePlain(s: string): Parsed {
    var (username, hostPort) := SplitUser(s);
    match ParseHostPort(hostPort)
    case Err(e) => Err(e)
    case Ok((hostname, port)) =>
      match ValidateHostname(hostname)
      case Err(e) => Err(e)
      case Ok(_) => Ok(Target(username, hostname, port))
  }

  function Parse(s: string, url: string -> Parsed): Parsed {
    var t := Trim(s);
    if t == "" then Err(Empty)
    else if URL_PREFIX <= t then url(t)
    else ParsePlain(t)
  }

  // ── What the plain form accepts ────────────────────────────────────────────

  ghost predicate UserOk(u: string) {
    u != "" && '@' !in u && u[0] != '[' && !IsWhitespace(u[0]) && !(URL_PREFIX <= u)
  }

  ghost predicate WellFormed(t: Target) {
    && (t.username.Some? ==> UserOk(t.username.value))
    && ValidateHostname(t.hostname).Ok?
  }

  lemma {:induction false} TrimmedStart(s: string)
    ensures var t := TrimStart(s); t != "" ==> !IsWhitespace(t[0])
  {
    if s != "" && IsWhitespace(s[0]) {
      TrimmedStart(s[1..]);
    }
  }

  lemma {:induction false} TrimEndIsPrefix(s: string)
    ensures TrimEnd(s) <= s
  {
    if s != "" && IsWhitespace(s[|s| - 1]) {
      TrimEndIsPrefix(s[..|s| - 1]);
    }
  }

  /** Whatever the plain form accepts is well formed. */
  lemma AcceptedIsWellFormed(s: string, url: string -> Parsed)
    requires !(URL_PREFIX <= Trim(s)) && Parse(s, url).Ok?
    ensures WellFormed(Parse(s, url).value)
  {
    TrimmedStart(s);
    TrimEndIsPrefix(TrimStart(s));
    var t := Trim(s);
    var username := SplitUser(t).0;
    if username.Some? {
      var u := username.value;
      assert u <= t;
      assert URL_PREFIX <= u ==> URL_PREFIX <= t;
    }
  }

  // ── Parsing what was printed ───────────────────────────────────────────────

  lemma {:induction false} CountZero(s: string, c: char)
    ensures Count(s, c) == 0 <==> c !in s
  {
    if s != "" {
      CountZero(s[1..], c);
      assert s == [s[0]] + s[1..];
    }
  }

  lemma {:induction false} CountOne(a: string, b: string, c: char)
    requires c !in a && c !in b
    ensures Count(a + [c] + b, c) == 1
  {
    var s := a + [c] + b;
    if a == "" {
      assert s[1..] == b;
      CountZero(b, c);
    } else {
      assert s[1..] == a[1..] + [c] + b;
      CountOne(a[1..], b, c);
    }
  }

  lemma Before(s: string, c: char, i: nat, j: nat)
    requires i <= |s| && j < |s| && s[j] == c
    ensures i <= j || c in s[..i]
  {
    if j < i {
      assert s[..i][j] == c;
    }
  }

  lemma Behind(s: string, c: char, i: nat, j: nat)
    requires i < |s| && j < |s| && s[j] == c
    ensures j <= i || c in s[i + 1..]
  {
    if i < j {
      assert s[i + 1..][j - i - 1] == c;
    }
  }

  lemma FindInMiddle(a: string, b: string, c: char)
    requires c !in a
    ensures Find(a + [c] + b, c) == Some(|a|)
  {
    var s := a + [c] + b;
    assert s[|a|] == c && s[..|a|] == a;
    var r := Find(s, c).value;
    Before(s, c, r, |a|);
    Before(s, c, |a|, r);
  }

  lemma FindLastInMiddle(a: string, b: string, c: char)
    requires c !in b
    ensures FindLast(a + [c] + b, c) == Some(|a|)
  {
    var s := a + [c] + b;
    assert s[|a|] == c && s[|a| + 1..] == b;
    var r := FindLast(s, c).value;
    Behind(s, c, r, |a|);
    Behind(s, c, |a|, r);
  }

  /** The printed host and port read back unless the host holds a closing bracket. */
  lemma HostPortReadsBack(h: string, port: Option<Port>)
    requires ValidateHostname(h).Ok? && ']' !in h
    ensures ParseHostPort(PrintHostPort(h, port)) == Ok((h, port))
  {
    if port.Some? {
      PortReadsBack(port.value);
    }
    if ':' in h {
      BracketedReadsBack(h, PrintPort(port));
      PortAfterBracket(h, port);
    } else {
      PlainHostChars(h);
      assert h[0] in h;
      if port.Some? {
        HostColonPort(h, Decimal(port.value));
        assert PrintHostPort(h, port) == h + [':'] + Decimal(port.value);
      } else {
        assert PrintHostPort(h, port) == h;
        CountZero(h, ':');
      }
    }
  }

  lemma PortAfterBracket(h: string, port: Option<Port>)
    requires port.Some? ==> ParsePort(Decimal(port.value)) == Ok(port.value)
    ensures ParseAfterBracket(h, PrintPort(port)) == Ok((h, port))
  {
    if port.Some? {
      assert PrintPort(port)[1..] == Decimal(port.value);
    }
  }

  /** One colon: the host is in front of it and the port behind. */
  lemma HostColonPort(h: string, digits: string)
    requires h != "" && h[0] != '[' && ':' !in h && ParsePort(digits).Ok? && AllDigits(digits)
    ensures ParseHostPort(h + [':'] + digits) == Ok((h, Some(ParsePort(digits).value)))
  {
    var s := h + [':'] + digits;
    CountOne(h, digits, ':');
    FindLastInMiddle(h, digits, ':');
    assert s[0] == h[0];
    assert s[..|h|] == h && s[|h| + 1..] == digits;
  }

  lemma BracketedReadsBack(h: string, rest: string)
    requires ']' !in h
    ensures ParseHostPort("[" + h + "]" + rest) == ParseAfterBracket(h, rest)
  {
    var s := "[" + h + "]" + rest;
    assert s == ("[" + h) + [']'] + rest;
    FindInMiddle("[" + h, rest, ']');
    assert s[1..|h| + 1] == h && s[|h| + 2..] == rest;
  }

  /** With a closing bracket in it, the printed host is cut there and what follows
      is never a port, because it ends with the printer's own bracket. */
  lemma StrayBracketFails(h: string, port: Option<Port>)
    requires ':' in h && ']' in h
    ensures ParseHostPort(PrintHostPort(h, port)).Err?
  {
    var i := Find(h, ']').value;
    var tail := h[i + 1..] + "]";
    var rest := tail + PrintPort(port);
    BracketSplit(h, i, PrintPort(port));
    BracketedReadsBack(h[..i], rest);
    assert tail[|tail| - 1] == ']';
    assert rest[|tail| - 1] == tail[|tail| - 1];
    NotAPort(h[..i], rest, |tail| - 1);
  }

  lemma BracketSplit(h: string, i: nat, port: string)
    requires i < |h| && h[i] == ']'
    ensures "[" + h + "]" + port == "[" + h[..i] + "]" + (h[i + 1..] + "]" + port)
  {
    assert h == h[..i] + "]" + h[i + 1..];
  }

  lemma NotAPort(host: string, rest: string, i: nat)
    requires i < |rest| && rest[i] == ']'
    ensures ParseAfterBracket(host, rest).Err?
  {
    if rest[0] == ':' {
      PortHasNoBracket(rest[1..], i - 1);
    }
  }

  lemma PortHasNoBracket(s: string, i: nat)
    requires i < |s| && s[i] == ']'
    ensures ParsePort(s).Err?
  {
    var digits := WithoutPlus(s);
    var j := i - (|s| - |digits|);
    assert digits[j] == s[i];
  }

  /** The user comes off the front of the printed target again. */
  lemma UserReadsBack(t: Target)
    requires WellFormed(t)
    ensures SplitUser(Print(t)) == (t.username, PrintHostPort(t.hostname, t.port))
  {
    var s, rest := Print(t), PrintHostPort(t.hostname, t.port);
    match t.username {
      case Some(u) =>
        assert s == u + ['@'] + rest;
        FindInMiddle(u, rest, '@');
        assert s[..|u|] == u && s[|u| + 1..] == rest;
      case None =>
        assert s == rest;
        if ':' !in t.hostname {
          PlainHostChars(t.hostname);
          assert '@' !in PrintPort(t.port);
          assert '@' !in rest;
        }
    }
  }

  lemma TrimKeeps(s: string)
    requires s != "" && !IsWhitespace(s[0]) && !IsWhitespace(s[|s| - 1])
    ensures Trim(s) == s
  {
  }

  lemma PrintedEnds(t: Target)
    requires WellFormed(t)
    ensures var s := Print(t); s != "" && !IsWhitespace(s[0]) && !IsWhitespace(s[|s| - 1])
  {
    var h, s := t.hostname, Print(t);
    assert h[0] in h && h[|h| - 1] in h;
    match t.port {
      case Some(p) =>
        var digits := Decimal(p);
        assert s[|s| - 1] == digits[|digits| - 1];
        assert digits[|digits| - 1] in digits;
      case None =>
    }
  }

  /** Printing never makes a target look like a URL. */
  lemma PrintedIsNotUrl(t: Target)
    requires WellFormed(t)
    ensures !(URL_PREFIX <= Print(t))
  {
    var s := Print(t);
    match t.username {
      case Some(u) =>
        assert s[|u|] == '@';
        if |u| >= |URL_PREFIX| {
          assert s[..|URL_PREFIX|] == u[..|URL_PREFIX|];
        } else {
          assert URL_PREFIX[|u|] != '@';
        }
      case None =>
        if ':' in t.hostname {
          assert s[0] == '[';
        } else {
          PlainHostChars(t.hostname);
          assert '/' !in t.hostname && '/' !in PrintPort(t.port);
          assert '/' !in s;
          assert URL_PREFIX[4] == '/';
        }
    }
  }

  lemma ParsePrinted(t: Target, url: string -> Parsed)
    requires WellFormed(t)
    ensures ']' !in t.hostname ==> Parse(Print(t), url) == Ok(t)
    ensures ']' in t.hostname ==> Parse(Print(t), url).Err?
  {
    PrintedEnds(t);
    TrimKeeps(Print(t));
    PrintedIsNotUrl(t);
    UserReadsBack(t);
    if ']' !in t.hostname {
      HostPortReadsBack(t.hostname, t.port);
    } else {
      BracketNeedsColon(t.hostname);
      StrayBracketFails(t.hostname, t.port);
    }
  }

  lemma BracketNeedsColon(h: string)
    requires ValidateHostname(h).Ok? && ']' in h
    ensures ':' in h
  {
    if ':' !in h {
      PlainHostChars(h);
    }
  }

  /** A string the plain form accepts prints to something that parses back to the
      same target, exactly when the host holds no closing bracket. */
  lemma RoundTrip(s: string, url: string -> Parsed)
    requires !(URL_PREFIX <= Trim(s)) && Parse(s, url).Ok?
    ensures var t := Parse(s, url).value;
      Parse(Print(t), url) == Ok(t) <==> ']' !in t.hostname
  {
    AcceptedIsWellFormed(s, url);
    ParsePrinted(Parse(s, url).value, url);
  }

  /** For every target whose print is not taken for a URL, well formed or not. */
  lemma RoundTripsExactly(t: Target, url: string -> Parsed)
    requires !(URL_PREFIX <= Trim(Print(t)))
    ensures Parse(Print(t), url) == Ok(t) <==> WellFormed(t) && ']' !in t.hostname
  {
    if Parse(Print(t), url) == Ok(t) {
      AcceptedIsWellFormed(Print(t), url);
    }
    if WellFormed(t) {
      ParsePrinted(t, url);
    }
  }

  lemma {:induction false} CountConcat(a: string, b: string, c: char)
    ensures Count(a + b, c) == Count(a, c) + Count(b, c)
  {
    if a == "" {
      assert a + b == b;
    } else {
      assert (a + b)[1..] == a[1..] + b;
      CountConcat(a[1..], b, c);
    }
  }

  lemma SingleColon(s: string)
    requires Count(s, ':') == 1
    ensures FindLast(s, ':').Some? && ':' !in s[..FindLast(s, ':').value]
  {
    CountZero(s, ':');
    var i := FindLast(s, ':').value;
    assert s == s[..i] + s[i..] && s[i..][0] == ':';
    CountConcat(s[..i], s[i..], ':');
    CountZero(s[..i], ':');
  }

  lemma InsideBrackets(s: string)
    requires s != "" && s[0] == '[' && ParseHostPort(s).Ok?
    ensures ']' !in ParseHostPort(s).value.0
  {
    var close := Find(s, ']').value;
    assert s[..close][1..] == s[1..close];
  }

  /** The bracket gets in only through the bare form with several colons. */
  lemma BracketOnlyInBareHosts(s: string)
    requires ParsePlain(s).Ok?
    ensures var hostPort := SplitUser(s).1;
      hostPort != "" && (']' in ParsePlain(s).value.hostname <==> hostPort[0] != '[' && ']' in hostPort)
  {
    HostBracket(SplitUser(s).1);
  }

  lemma HostBracket(s: string)
    requires ParseHostPort(s).Ok? && ValidateHostname(ParseHostPort(s).value.0).Ok?
    ensures s != "" && (']' in ParseHostPort(s).value.0 <==> s[0] != '[' && ']' in s)
  {
    if s != "" && s[0] == '[' {
      InsideBrackets(s);
    } else if Count(s, ':') == 1 {
      SingleColon(s);
      PlainHostChars(ParseHostPort(s).value.0);
      NoBracketAroundColon(s, FindLast(s, ':').value);
    }
  }

  lemma NoBracketAroundColon(s: string, i: nat)
    requires i < |s| && s[i] == ':' && ']' !in s[..i] && ParsePort(s[i + 1..]).Ok?
    ensures ']' !in s
  {
    if ']' in s[i + 1..] {
      var k :| 0 <= k < |s| - i - 1 && s[i + 1..][k] == ']';
      PortHasNoBracket(s[i + 1..], k);
    }
    assert s == s[..i] + [':'] + s[i + 1..];
  }

  /** `a]::b` is accepted and its printed form is not. */
  lemma StrayBracketExample(url: string -> Parsed)
    ensures ParsePlain("a]::b") == Ok(Target(None, "a]::b", None))
    ensures Parse(Print(Target(None, "a]::b", None)), url).Err?
  {
    var s := "a]::b";
    assert Count(s, ':') == 2 by {
      assert s[1..] == "]::b" && s[1..][1..] == "::b" && "::b"[1..] == ":b" && ":b"[1..] == "b" && "b"[1..] == "";
    }
    assert Find(s, '@') == None;
    assert s[2] == ':';
    var t := Target(None, s, None);
    assert Utf8Length(s) <= 253 by { AsciiLength(s); }
    assert s[1] == ']';
    ParsePrinted(t, url);
  }

  lemma {:induction false} AsciiLength(s: string)
    requires forall i :: 0 <= i < |s| ==> s[i] as int < 0x80
    ensures Utf8Length(s) == |s|
  {
    if s != "" {
      AsciiLength(s[1..]);
    }
  }

  // ── Ports, hosts and targets by the letter ─────────────────────────────────

  function Zeros(k: nat): string {
    if k == 0 then "" else Zeros(k - 1) + "0"
  }

  /** A port as it may be written: a plus sign or none, any zeros, the decimal number. */
  ghost predicate PortText(s: string, p: Port) {
    exists k: nat :: s == Zeros(k) + Decimal(p) || s == "+" + (Zeros(k) + Decimal(p))
  }

  lemma {:induction false} ZerosAreDigits(k: nat)
    ensures |Zeros(k)| == k && forall i :: 0 <= i < k ==> Zeros(k)[i] == '0'
  {
    if k > 0 {
      ZerosAreDigits(k - 1);
    }
  }

  lemma {:induction false} AllZeros(s: string)
    requires AllDigits(s) && Value(s) == 0
    ensures s == Zeros(|s|)
  {
    if s != "" {
      assert s == s[..|s| - 1] + [s[|s| - 1]];
      AllZeros(s[..|s| - 1]);
    }
  }

  lemma {:induction false} DigitsAreDecimal(s: string) returns (k: nat)
    requires s != "" && AllDigits(s)
    ensures s == Zeros(k) + Decimal(Value(s))
  {
    var front, last := s[..|s| - 1], s[|s| - 1];
    assert s == front + [last];
    if Value(front) == 0 {
      AllZeros(front);
      k := |front|;
    } else {
      assert front != "";
      k := DigitsAreDecimal(front);
      assert Value(s) / 10 == Value(front);
      assert Decimal(Value(s)) == Decimal(Value(front)) + [last];
    }
  }

  lemma {:induction false} ValueOfPadded(k: nat, d: string)
    requires AllDigits(d)
    ensures AllDigits(Zeros(k) + d) && Value(Zeros(k) + d) == Value(d)
    decreases k + |d|
  {
    ZerosAreDigits(k);
    var s := Zeros(k) + d;
    assert AllDigits(s);
    if d != "" {
      assert s[..|s| - 1] == Zeros(k) + d[..|d| - 1];
      ValueOfPadded(k, d[..|d| - 1]);
    } else if k > 0 {
      assert s[..|s| - 1] == Zeros(k - 1) + d;
      ValueOfPadded(k - 1, d);
    }
  }

  lemma PaddedParses(k: nat, p: Port)
    ensures ParsePort(Zeros(k) + Decimal(p)) == Ok(p) && ParsePort("+" + (Zeros(k) + Decimal(p))) == Ok(p)
  {
    var d := Zeros(k) + Decimal(p);
    ValueOfPadded(k, Decimal(p));
    DecimalReadsBack(p);
    assert IsDigit(d[0]);
    assert ("+" + d)[1..] == d;
  }

  /** The accepted ports are exactly the 16-bit decimal numbers, with a plus sign and
      leading zeros allowed. */
  lemma PortIsExact(s: string, p: Port)
    ensures ParsePort(s) == Ok(p) <==> PortText(s, p)
  {
    if ParsePort(s) == Ok(p) {
      var k := DigitsAreDecimal(WithoutPlus(s));
      assert s == WithoutPlus(s) || s == "+" + WithoutPlus(s);
    }
    if k: nat :| s == Zeros(k) + Decimal(p) || s == "+" + (Zeros(k) + Decimal(p)) {
      PaddedParses(k, p);
    }
  }

  predicate CharsOk(h: string) {
    forall i :: 0 <= i < |h| ==> IsLabelChar(h[i]) || h[i] == '.'
  }

  predicate HyphenInside(h: string, i: nat)
    requires i < |h|
  {
    h[i] == '-' ==> 0 < i < |h| - 1 && h[i - 1] != '.' && h[i + 1] != '.'
  }

  predicate HyphensInside(h: string) {
    forall i: nat :: i < |h| ==> HyphenInside(h, i)
  }

  predicate DotWithin(h: string, i: nat)
    requires i + 64 <= |h|
  {
    exists j :: i <= j < i + 64 && h[j] == '.'
  }

  predicate NoLongRun(h: string) {
    forall i: nat :: i + 64 <= |h| ==> DotWithin(h, i)
  }

  /** A dot-separated name by its characters: letters, digits, hyphens and underscores; no
      hyphen beside a dot or an end; no 64 characters in a row without a dot. */
  predicate NameByTheLetter(h: string) {
    CharsOk(h) && HyphensInside(h) && NoLongRun(h)
  }

  lemma LabelByTheLetter(l: string)
    requires '.' !in l
    ensures LabelOk(l) <==> NameByTheLetter(l)
  {
    assert forall i :: 0 <= i < |l| ==> l[i] in l;
    if CharsOk(l) {
      AsciiLength(l);
      assert NoLongRun(l) <==> |l| < 64 by {
        assert |l| >= 64 ==> !DotWithin(l, 0);
      }
      if l != "" && HyphensInside(l) {
        assert HyphenInside(l, 0) && HyphenInside(l, |l| - 1);
      }
    }
  }

  lemma SplitChars(a: string, b: string)
    ensures CharsOk(a + "." + b) <==> CharsOk(a) && CharsOk(b)
  {
    var h := a + "." + b;
    assert forall i :: 0 <= i < |a| ==> h[i] == a[i];
    assert forall i :: 0 <= i < |b| ==> h[|a| + 1 + i] == b[i];
  }

  lemma SplitHyphens(a: string, b: string)
    requires '.' !in a
    ensures HyphensInside(a + "." + b) <==> HyphensInside(a) && HyphensInside(b)
  {
    var h := a + "." + b;
    assert forall i :: 0 <= i < |a| ==> h[i] == a[i];
    assert forall i :: 0 <= i < |b| ==> h[|a| + 1 + i] == b[i];
    forall i: nat | i < |a| ensures HyphenInside(h, i) <==> HyphenInside(a, i) {
      assert forall k :: 0 <= k < |a| ==> a[k] in a;
    }
    forall i: nat | i < |b| ensures HyphenInside(h, |a| + 1 + i) <==> HyphenInside(b, i) {
    }
    if HyphensInside(a) && HyphensInside(b) {
      forall i: nat | i < |h| ensures HyphenInside(h, i) {
        if i > |a| {
          assert HyphenInside(b, i - |a| - 1);
        }
      }
    }
  }

  lemma SplitRuns(a: string, b: string)
    requires '.' !in a
    ensures NoLongRun(a + "." + b) <==> NoLongRun(a) && NoLongRun(b)
  {
    var h := a + "." + b;
    assert forall i :: 0 <= i < |a| ==> h[i] == a[i];
    assert forall i :: 0 <= i < |b| ==> h[|a| + 1 + i] == b[i];
    forall i: nat | i + 64 <= |a| ensures DotWithin(h, i) <==> DotWithin(a, i) {
    }
    forall i: nat | i + 64 <= |b| ensures DotWithin(h, |a| + 1 + i) <==> DotWithin(b, i) {
      if DotWithin(h, |a| + 1 + i) {
        var j :| |a| + 1 + i <= j < |a| + 1 + i + 64 && h[j] == '.';
        assert b[j - |a| - 1] == '.';
      }
    }
    if NoLongRun(a) && NoLongRun(b) {
      forall i: nat | i + 64 <= |h| ensures DotWithin(h, i) {
        if i > |a| {
          assert DotWithin(b, i - |a| - 1);
        } else if i + 64 <= |a| {
          assert DotWithin(a, i);
        } else {
          assert h[|a|] == '.';
        }
      }
    }
  }

  lemma {:induction false} LabelsByTheLetter(h: string)
    ensures (forall l :: l in Labels(h) ==> LabelOk(l)) <==> NameByTheLetter(h)
    decreases |h|
  {
    match Find(h, '.')
    case None =>
      LabelByTheLetter(h);
      assert h in Labels(h);
    case Some(i) =>
      var a, b := h[..i], h[i + 1..];
      assert h == a + "." + b;
      LabelByTheLetter(a);
      LabelsByTheLetter(b);
      SplitChars(a, b);
      SplitHyphens(a, b);
      SplitRuns(a, b);
      var labels := Labels(h);
      assert labels == [a] + Labels(b) && labels[0] == a;
      assert forall l :: l in labels <==> l == a || l in Labels(b);
  }

  /** The accepted hosts: at most 253 bytes without white space and control characters, and
      with a colon, of digits and dots, or a name by the letter. */
  lemma HostIsExact(h: string)
    ensures ValidateHostname(h).Ok? <==>
              && h != "" && Utf8Length(h) <= 253
              && (forall c :: c in h ==> !IsWhitespace(c) && !IsControl(c))
              && (':' in h || (forall c :: c in h ==> '0' <= c <= '9' || c == '.') || NameByTheLetter(h))
  {
    LabelsByTheLetter(h);
  }

  // ── Accepted strings by the letter ─────────────────────────────────────────

  /** Nothing, or a colon and a port. */
  ghost predicate PortPart(s: string, port: Option<Port>) {
    match port
    case None => s == ""
    case Some(p) => s != "" && s[0] == ':' && PortText(s[1..], p)
  }

  predicate Bracketed(s: string) {
    s != "" && s[0] == '['
  }

  /** `[host]` with or without a port, `host:port` with no other colon, or a host alone with
      no colon or several. */
  ghost predicate HostPortText(s: string, host: string, port: Option<Port>) {
    if Bracketed(s) then ']' !in host && "[" + host + "]" <= s && PortPart(s[|host| + 2..], port)
    else if port.None? then s == host && Count(s, ':') != 1
    else ':' !in host && host <= s && PortPart(s[|host|..], port)
  }

  lemma PortTextChars(s: string, p: Port)
    requires PortText(s, p)
    ensures s != "" && ':' !in s && s != ":"
  {
    PortIsExact(s, p);
    assert forall i :: 0 <= i < |s| ==> s[i] == '+' || IsDigit(s[i]) by {
      var digits := WithoutPlus(s);
      assert s == digits || s == "+" + digits;
    }
  }

  lemma AfterBracketIsExact(host: string, rest: string, port: Option<Port>)
    ensures ParseAfterBracket(host, rest) == Ok((host, port)) <==> PortPart(rest, port)
  {
    if port.Some? && rest != "" {
      PortIsExact(rest[1..], port.value);
      if PortText(rest[1..], port.value) {
        PortTextChars(rest[1..], port.value);
      }
    }
  }

  lemma BracketedIsExact(s: string, host: string, port: Option<Port>)
    requires Bracketed(s)
    ensures ParseHostPort(s) == Ok((host, port)) <==> HostPortText(s, host, port)
  {
    if ParseHostPort(s) == Ok((host, port)) {
      var close := Find(s, ']').value;
      var rest := s[close + 1..];
      assert s[1..close] == host && s == "[" + host + "]" + rest && s[|host| + 2..] == rest;
      AfterBracketIsExact(host, rest, port);
      assert forall c :: c in s[1..close] ==> c in s[..close];
    }
    if HostPortText(s, host, port) {
      var tail := s[|host| + 2..];
      assert s == "[" + host + "]" + tail;
      BracketFound(s, host, tail);
      AfterBracketIsExact(host, tail, port);
    }
  }

  lemma {:induction false} FindIs(s: string, c: char, i: nat)
    requires i < |s| && s[i] == c && c !in s[..i]
    ensures Find(s, c) == Some(i)
  {
    if i > 0 {
      assert s[..i][0] == s[0] && s[1..][..i - 1] == s[..i][1..];
      FindIs(s[1..], c, i - 1);
    }
  }

  lemma {:induction false} FindLastIs(s: string, c: char, i: nat)
    requires i < |s| && s[i] == c && c !in s[i + 1..]
    ensures FindLast(s, c) == Some(i)
  {
    if i + 1 < |s| {
      var front := s[..|s| - 1];
      var behind := s[i + 1..];
      assert behind[|behind| - 1] == s[|s| - 1] && front[i + 1..] == behind[..|behind| - 1];
      FindLastIs(front, c, i);
    }
  }

  lemma BracketFound(s: string, host: string, tail: string)
    requires ']' !in host && s == "[" + host + "]" + tail
    ensures Find(s, ']') == Some(|host| + 1) && s[1..|host| + 1] == host && s[|host| + 2..] == tail
  {
    assert s[|host| + 1] == ']' && s[..|host| + 1] == "[" + host;
    FindIs(s, ']', |host| + 1);
  }

  lemma PlainPortIsWritten(s: string, host: string, p: Port)
    requires !Bracketed(s) && ParseHostPort(s) == Ok((host, Some(p)))
    ensures HostPortText(s, host, Some(p))
  {
    SingleColon(s);
    var i := FindLast(s, ':').value;
    PortIsExact(s[i + 1..], p);
    assert s[..i] == host && s[i..][1..] == s[i + 1..];
  }

  lemma PlainPortIsRead(s: string, host: string, p: Port)
    requires !Bracketed(s) && HostPortText(s, host, Some(p))
    ensures ParseHostPort(s) == Ok((host, Some(p)))
  {
    var text := s[|host| + 1..];
    assert s[|host|..][1..] == text && s[..|host|] == host && s == host + [':'] + text;
    PortTextChars(text, p);
    PortIsExact(text, p);
    CountOne(host, text, ':');
    FindLastIs(s, ':', |host|);
  }

  lemma HostPortIsExact(s: string, host: string, port: Option<Port>)
    ensures ParseHostPort(s) == Ok((host, port)) <==> HostPortText(s, host, port)
  {
    if Bracketed(s) {
      BracketedIsExact(s, host, port);
    } else if port.Some? {
      if ParseHostPort(s) == Ok((host, port)) {
        PlainPortIsWritten(s, host, port.value);
      }
      if HostPortText(s, host, port) {
        PlainPortIsRead(s, host, port.value);
      }
    } else if Count(s, ':') == 1 {
      SingleColon(s);
    }
  }

  /** What stands before the host part: nothing, a bare `@`, or a user and an `@`. */
  ghost predicate UserText(s: string, username: Option<string>, hostPort: string) {
    match username
    case None => (s == hostPort && ('@' !in s || Bracketed(s))) || s == "@" + hostPort
    case Some(u) => u != "" && '@' !in u && !Bracketed(u) && s == u + "@" + hostPort
  }

  lemma AtFound(s: string, u: string, rest: string)
    requires '@' !in u && s == u + "@" + rest
    ensures Find(s, '@') == Some(|u|) && s[..|u|] == u && s[|u| + 1..] == rest
  {
    assert s[|u|] == '@' && s[..|u|] == u;
    FindIs(s, '@', |u|);
  }

  lemma UserIsRead(s: string, username: Option<string>, hostPort: string)
    requires UserText(s, username, hostPort)
    ensures SplitUser(s) == (username, hostPort)
  {
    if username.Some? {
      AtFound(s, username.value, hostPort);
      assert s[0] == username.value[0];
    } else if s == "@" + hostPort {
      AtFound(s, "", hostPort);
    }
  }

  lemma UserIsExact(s: string, username: Option<string>, hostPort: string)
    ensures SplitUser(s) == (username, hostPort) <==> UserText(s, username, hostPort)
  {
    if SplitUser(s) == (username, hostPort) {
      var at := FindUserAt(s);
      if at.Some? {
        assert s == s[..at.value] + "@" + s[at.value + 1..];
      }
    }
    if UserText(s, username, hostPort) {
      UserIsRead(s, username, hostPort);
    }
  }

  /** The plain form accepts a string as a target if and only if the string is a user part
      and a host part of that target, and the host is an accepted one. */
  lemma PlainIsExact(s: string, t: Target)
    ensures ParsePlain(s) == Ok(t) <==>
              && ValidateHostname(t.hostname).Ok?
              && exists hostPort :: UserText(s, t.username, hostPort) && HostPortText(hostPort, t.hostname, t.port)
  {
    var (username, hostPort) := SplitUser(s);
    UserIsExact(s, username, hostPort);
    if ParsePlain(s) == Ok(t) {
      HostPortIsExact(hostPort, t.hostname, t.port);
    }
    if h :| UserText(s, t.username, h) && HostPortText(h, t.hostname, t.port) {
      UserIsExact(s, t.username, h);
      HostPortIsExact(h, t.hostname, t.port);
    }
  }
}
