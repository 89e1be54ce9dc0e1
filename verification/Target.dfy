/**
 The parse of a CONNECT request target into a host and a port.
 */
module Target {
  datatype Authority = Authority(host: string, port: string)

  predicate IsDigit(c: char) {
    '0' <= c <= '9'
  }

  /** Zero or more characters that are not a colon, and what follows. */
  function HostChars(s: string): (r: (string, string))
    ensures r.0 + r.1 == s
  {
    if s == "" || s[0] == ':' then ("", s)
    else var (cs, rest) := HostChars(s[1..]); ([s[0]] + cs, rest)
  }

  /** Zero or more digits, and what follows. */
  function Digits(s: string): (r: (string, string))
    ensures r.0 + r.1 == s
  {
    if s == "" || !IsDigit(s[0]) then ("", s)
    else var (ds, rest) := Digits(s[1..]); ([s[0]] + ds, rest)
  }

  /** A host of at least one character, and then optionally a colon with at least one digit. Input that
      does not match, in whole or in its rest, leaves the strings as far as they were filled. */
  function Parse(target: string): Authority {
    var (host, rest) := HostChars(target);
    if host == "" then Authority("", "")
    else if rest != "" && rest[0] == ':' then Authority(host, Digits(rest[1..]).0)
    else Authority(host, "")
  }

  predicate ColonFree(s: string) {
    ':' !in s
  }

  predicate AllDigits(s: string) {
    forall i :: 0 <= i < |s| ==> IsDigit(s[i])
  }

  lemma {:induction false} HostCharsLongest(s: string)
    ensures var (host, rest) := HostChars(s);
            ColonFree(host) && (rest == "" || rest[0] == ':')
  {
    if s == "" || s[0] == ':' {
    } else {
      HostCharsLongest(s[1..]);
    }
  }

  lemma {:induction false} DigitsLongest(s: string)
    ensures var (digits, rest) := Digits(s);
            AllDigits(digits) && (rest == "" || !IsDigit(rest[0]))
  {
    if s == "" || !IsDigit(s[0]) {
    } else {
      DigitsLongest(s[1..]);
    }
  }

  /** What the parse means: the host is the longest prefix without a colon; the port is the longest run
      of digits behind the colon that ends a non-empty host, or empty. */
  predicate Means(target: string, a: Authority) {
    && ColonFree(a.host) && a.host <= target
    && (|a.host| < |target| ==> target[|a.host|] == ':')
    && if a.host != "" && |a.host| < |target| then
      var tail := target[|a.host| + 1..];
      && AllDigits(a.port) && a.port <= tail
      && (|a.port| < |tail| ==> !IsDigit(tail[|a.port|]))
    else a.port == ""
  }

  /** For every target the parse is the one pair with that meaning. */
  lemma ParseIsMeaning(target: string, a: Authority)
    ensures Parse(target) == a <==> Means(target, a)
  {
    var (host, rest) := HostChars(target);
    HostCharsLongest(target);
    assert target[..|host|] == host && target[|host|..] == rest;
    if rest != "" {
      DigitsLongest(rest[1..]);
      assert rest[1..] == target[|host| + 1..];
    }
    assert Means(target, Parse(target));
    if Means(target, a) {
      MeaningIsUnique(target, a, Parse(target));
    }
  }

  lemma MeaningIsUnique(target: string, a: Authority, b: Authority)
    requires Means(target, a) && Means(target, b)
    ensures a == b
  {
  }

  function Print(a: Authority): string {
    if a.port == "" then a.host else a.host + ":" + a.port
  }

  /** Printing a non-empty host without a colon, alone or with digits as its port, and parsing it. */
  lemma ParsePrinted(a: Authority)
    requires a.host != "" && ColonFree(a.host) && AllDigits(a.port)
    ensures Parse(Print(a)) == a
  {
    var target := Print(a);
    assert target[..|a.host|] == a.host;
    if a.port != "" {
      assert target[|a.host| + 1..] == a.port;
    }
    ParseIsMeaning(target, a);
  }

  /** The authority form of section 5.3.3 of RFC 7230 as far as this parser knows it: a host without a
      colon, or one that is followed by a first colon and, up to the end, by digits. */
  predicate IsAuthorityForm(target: string) {
    && target != ""
    && (ColonFree(target)
        || exists k :: 0 < k < |target| - 1 && target[k] == ':' && ColonFree(target[..k]) && AllDigits(target[k + 1..]))
  }

  /** The parse reads its input in part: apart from the empty target, which yields two empty strings, it
      stands for the whole target exactly for authority form. */
  lemma ParseTakesWholeExactly(target: string)
    ensures Print(Parse(target)) == target <==> target == "" || IsAuthorityForm(target)
  {
    var a := Parse(target);
    ParseIsMeaning(target, a);
    hide Parse;
    var n := |a.host|;
    if 0 < n < |target| {
      var tail := target[n + 1..];
      assert target[..n] == a.host && target == a.host + ":" + tail;
      if Print(a) == target {
        assert |a.port| == |tail| && a.port == tail;
      } else if tail != "" {
        assert a.port != tail;
      }
    }
  }

  /** The address and port of an IPv6 host: the host ends at the first colon inside the brackets and the
      port is lost. */
  lemma ParseCutsAddress()
    ensures Parse("[::1]:443") == Authority("[", "") && !IsAuthorityForm("[::1]:443")
  {
    var target := "[::1]:443";
    assert target[..1] == "[" && target[1] == target[2] == ':';
    assert Means(target, Authority("[", ""));
    ParseIsMeaning(target, Authority("[", ""));
    ParseTakesWholeExactly(target);
  }

  /** Every digit belongs to a port, and no other character does. */
  lemma PortDigits(c: char)
    ensures Parse(['h', ':', c]).port == if c in "0123456789" then [c] else ""
  {
    var target, a := ['h', ':', c], Authority("h", if c in "0123456789" then [c] else "");
    assert IsDigit(c) <==> c in "0123456789";
    assert target[..1] == "h" && target[2..] == [c];
    ParseIsMeaning(target, a);
  }

  /** Whatever stands behind the digits is dropped. */
  lemma ParseStopsBehindDigits(a: Authority, rest: string)
    requires a.host != "" && ColonFree(a.host) && AllDigits(a.port)
    requires rest == "" || !IsDigit(rest[0])
    ensures Parse(a.host + ":" + a.port + rest) == a
  {
    var target := a.host + ":" + a.port + rest;
    hide IsDigit;
    assert target[..|a.host|] == a.host;
    var tail := target[|a.host| + 1..];
    assert tail == a.port + rest && tail[..|a.port|] == a.port;
    ParseIsMeaning(target, a);
  }

  /** A port of all digits, and one that a letter ends. */
  lemma ParseDigits()
    ensures Parse("host:0123456789") == Authority("host", "0123456789")
    ensures Parse("host:80a1") == Authority("host", "80")
  {
    hide Parse;
    assert AllDigits("0123456789") && AllDigits("80") && !IsDigit("a1"[0]);
    hide AllDigits;
    hide IsDigit;
    ParseStopsBehindDigits(Authority("host", "0123456789"), "");
    ParseStopsBehindDigits(Authority("host", "80"), "a1");
    assert "host" + ":" + "0123456789" + "" == "host:0123456789";
    assert "host" + ":" + "80" + "a1" == "host:80a1";
  }
}
