/** Addresses of the form `host:port` and `[host]:port`. */
module HostPort {
  import opened Common
  import opened Decimal
  import opened Text

  const PORT_MAX: nat := 65_535

  type Port = p: int | 0 <= p <= PORT_MAX

  datatype Address = Address(host: string, port: Port)

  datatype AddressError = EmptyAddress | MissingBracket | MissingPort | InvalidPort | EmptyHost | BadForm

  /** A port number: digits, possibly after a plus sign, of any length as long as the value fits. */
  function ParsePort(s: string): Option<Port> {
    var digits := if s != "" && s[0] == '+' then s[1..] else s;
    if digits == "" || !AllDigits(digits) then None
    else if Value(digits) > PORT_MAX then None
    else Some(Value(digits))
  }

  function Parse(address: string): Result<Address, AddressError> {
    var s := Trim(address);
    if s == "" then Err(EmptyAddress)
    else if s[0] == '[' then
      var rest := s[1..];
      var close := Next(rest, ']', 0);
      if close == |rest| then Err(MissingBracket)
      else
        var host, after := rest[..close], rest[close + 1..];
        if after == "" || after[0] != ':' then Err(MissingPort)
        else
          match ParsePort(after[1..])
          case None => Err(InvalidPort)
          case Some(port) => if host == "" then Err(EmptyHost) else Ok(Address(host, port))
    else
      var colon := Last(s, ':');
      if colon == |s| then Err(BadForm)
      else
        var host, port := s[..colon], s[colon + 1..];
        if host == "" || port == "" || ':' in host then Err(BadForm)
        else
          match ParsePort(port)
          case None => Err(InvalidPort)
          case Some(p) => Ok(Address(host, p))
  }

  function Join(host: string, port: Port): string {
    if ':' in host && (host == "" || host[0] != '[') then "[" + host + "]:" + Print(port)
    else host + ":" + Print(port)
  }

  // ---------- what is accepted ----------

  /** Accepted are exactly digits, a plus sign before them or not, whose value is a port. */
  lemma ParsePortIff(s: string, p: Port)
    ensures ParsePort(s) == Some(p) <==>
            exists digits ::
              (s == digits || s == "+" + digits) && digits != "" && AllDigits(digits) && Value(digits) == p
  {
    hide Value;
    if ParsePort(s) == Some(p) {
      var digits := if s[0] == '+' then s[1..] else s;
      assert s == digits || s == "+" + digits;
    }
    if digits :| (s == digits || s == "+" + digits) && digits != "" && AllDigits(digits) && Value(digits) == p {
      assert IsDigit(digits[0]);
      assert ("+" + digits)[1..] == digits;
    }
  }

  /** How an address can be spelled: with brackets, or without and then with a single colon. */
  ghost predicate Spells(s: string, host: string, port: string) {
    if s != "" && s[0] == '[' then s == "[" + host + "]:" + port && ']' !in host
    else s == host + ":" + port && ':' !in host
  }

  lemma PortHasNoColon(s: string)
    requires ParsePort(s).Some?
    ensures s != "" && ':' !in s
  {
    forall k | 0 <= k < |s| ensures s[k] != ':' {
      if k > 0 && s[0] == '+' {
        assert s[k] == s[1..][k - 1];
      }
    }
  }

  /** An address is accepted only as one of the two spellings of a non-empty host and a port. */
  lemma ParsedIsSpelled(address: string) returns (port: string)
    requires Parse(address).Ok?
    ensures var a := Parse(address).value;
            a.host != "" && Spells(Trim(address), a.host, port) && ParsePort(port) == Some(a.port)
  {
    hide ParsePort, Trim;
    var s := Trim(address);
    if s[0] == '[' {
      var rest := s[1..];
      var close := Next(rest, ']', 0);
      port := rest[close + 1..][1..];
      Bracketed(s, rest, close);
    } else {
      var colon := Last(s, ':');
      port := s[colon + 1..];
      assert s == s[..colon] + ":" + port;
    }
  }

  lemma Bracketed(s: string, rest: string, close: nat)
    requires s != "" && s[0] == '[' && rest == s[1..] && close < |rest| && rest[close] == ']'
    requires rest[close + 1..] != "" && rest[close + 1..][0] == ':'
    ensures s == "[" + rest[..close] + "]:" + rest[close + 1..][1..]
  {
    assert rest == rest[..close] + "]" + rest[close + 1..];
    assert rest[close + 1..] == ":" + rest[close + 1..][1..];
    assert s == "[" + rest;
  }

  /** Every such spelling, with white space around it or not, is accepted as that host and port. */
  lemma SpelledIsParsed(address: string, host: string, port: string)
    requires host != "" && Spells(Trim(address), host, port) && ParsePort(port).Some?
    ensures Parse(address) == Ok(Address(host, ParsePort(port).value))
  {
    hide ParsePort, Trim;
    var s := Trim(address);
    PortHasNoColon(port);
    if s[0] == '[' {
      BracketedParts(s, host, port);
    } else {
      PlainParts(s, host, port);
    }
  }

  lemma BracketedParts(s: string, host: string, port: string)
    requires s == "[" + host + "]:" + port && ']' !in host
    ensures var rest := s[1..];
            && Next(rest, ']', 0) == |host| < |rest| && rest[..|host|] == host
            && rest[|host| + 1..] == ":" + port && (":" + port)[1..] == port
  {
    var rest := s[1..];
    assert rest == host + ("]:" + port);
    assert rest[|host|] == ']';
    forall k | 0 <= k < |host| ensures rest[k] != ']' {
      assert rest[k] == host[k];
    }
  }

  lemma PlainParts(s: string, host: string, port: string)
    requires s == host + ":" + port && ':' !in port
    ensures Last(s, ':') == |host| < |s| && s[..|host|] == host && s[|host| + 1..] == port
  {
    assert s[|host|] == ':';
    forall k | |host| < k < |s| ensures s[k] != ':' {
      assert s[k] == port[k - |host| - 1];
    }
  }

  // ---------- printing and reading back ----------

  lemma PrintedPort(port: Port)
    ensures ParsePort(Print(port)) == Some(port)
  {
    hide Print, Value;
    ValueOfPrint(port);
    assert IsDigit(Print(port)[0]);
  }

  /** Hosts that survive printing and parsing; white space at the end does, at the start only in brackets. */
  predicate Printable(host: string) {
    host != "" && host[0] != '[' && if ':' in host then ']' !in host else !IsWhitespace(host[0])
  }

  lemma JoinEnds(host: string, port: Port)
    ensures var s := Join(host, port);
            && s == (if ':' in host && host[0] != '[' then "[" + host + "]:" else host + ":") + Print(port)
            && IsDigit(s[|s| - 1])
  {
    hide Print;
    var s := Join(host, port);
    assert s[|s| - 1] == Print(port)[|Print(port)| - 1];
  }

  lemma {:induction false} TrimStartCuts(s: string) returns (k: nat)
    ensures k <= |s| && TrimStart(s) == s[k..]
    ensures s != "" && IsWhitespace(s[0]) ==> k > 0
  {
    k := 0;
    if s != "" && IsWhitespace(s[0]) {
      var j := TrimStartCuts(s[1..]);
      k := j + 1;
    }
  }

  lemma ColonOfSpelling(s: string, host: string, text: string)
    requires s != "" && Spells(s, host, text)
    ensures var at := if s[0] == '[' then |host| + 2 else |host|; at < |s| && s[at] == ':'
  {
  }

  lemma BracketOfSpelling(s: string, host: string, text: string)
    requires s == "[" + host + "]:" + text
    ensures |host| + 1 < |s| && s[|host| + 1] == ']'
  {
  }

  /** White space before a plain address is lost, so the host does not come back. */
  lemma LeadingSpaceIsLost(host: string, port: string, text: string)
    requires host != "" && ':' !in host && IsWhitespace(host[0])
    requires port != "" && AllDigits(port)
    ensures !Spells(Trim(host + ":" + port), host, text)
  {
    var s := host + ":" + port;
    var k := TrimStartCuts(s);
    assert !IsWhitespace(s[|s| - 1]);
    forall i | 0 <= i < |s| ensures s[i] == ':' <==> i == |host| {
      if i < |host| {
        assert s[i] == host[i];
      } else if i > |host| {
        assert s[i] == port[i - |host| - 1];
      }
    }
    if k < |s| {
      assert Trim(s) == s[k..];
      forall i | 0 <= i < |s| - k ensures Trim(s)[i] == ':' <==> i + k == |host| {
        assert Trim(s)[i] == s[i + k];
      }
      if Spells(Trim(s), host, text) {
        ColonOfSpelling(Trim(s), host, text);
      }
    } else {
      assert s[k..] == "";
    }
  }

  /** A host that itself starts with a bracket is not put into brackets, so it is taken apart. */
  lemma LeadingBracketIsLost(host: string, port: string, text: string)
    requires host != "" && host[0] == '[' && port != "" && AllDigits(port)
    ensures !Spells(Trim(host + ":" + port), host, text)
  {
    var s := host + ":" + port;
    assert s[|host| + 1] == port[0] && IsDigit(port[0]);
    assert !IsWhitespace(s[0]) && !IsWhitespace(s[|s| - 1]);
    TrimmedAlready(s);
    if s == "[" + host + "]:" + text {
      BracketOfSpelling(s, host, text);
    }
  }

  lemma OnlyPrintableComesBack(host: string, port: Port, text: string)
    requires host != "" && Spells(Trim(Join(host, port)), host, text)
    ensures Printable(host)
  {
    hide Trim, Print;
    var s := Join(host, port);
    JoinEnds(host, port);
    TrimmedAlready(s);
    if host[0] == '[' {
      LeadingBracketIsLost(host, Print(port), text);
    } else if ':' !in host && IsWhitespace(host[0]) {
      LeadingSpaceIsLost(host, Print(port), text);
    }
  }

  /** Joining a host and a port and parsing the result gives both back, exactly for those hosts. */
  lemma RoundTripIffPrintable(host: string, port: Port)
    ensures Parse(Join(host, port)) == Ok(Address(host, port)) <==> Printable(host)
  {
    hide Parse, ParsePort, Trim, Print;
    var s := Join(host, port);
    PrintedPort(port);
    JoinEnds(host, port);
    if Printable(host) {
      TrimmedAlready(s);
      SpelledIsParsed(s, host, Print(port));
    }
    if Parse(s) == Ok(Address(host, port)) {
      var text := ParsedIsSpelled(s);
      OnlyPrintableComesBack(host, port, text);
    }
  }

  /** An address without brackets, however it spelled its port, is brought to one form and then stays. */
  lemma PlainIsNormalised(address: string)
    requires Parse(address).Ok? && Trim(address)[0] != '['
    ensures var a := Parse(address).value; Parse(Join(a.host, a.port)) == Ok(a)
  {
    hide Parse, ParsePort, Trim;
    var a := Parse(address).value;
    var text := ParsedIsSpelled(address);
    assert Trim(address)[0] == a.host[0];
    RoundTripIffPrintable(a.host, a.port);
  }
}
