/** The parts of java.lang.String and java.lang.Integer that address parsing relies on. */
module JavaText {
  import opened Outcomes

  /** String.trim removes every character whose code is at most U+0020 from both ends. */
  predicate IsTrimmable(c: char) { c <= ' ' }

  /** Neither end of s is a character that String.trim would remove. */
  predicate IsTrimmed(s: string) {
    s == [] || (!IsTrimmable(s[0]) && !IsTrimmable(s[|s| - 1]))
  }

  /** s without its leading run of trimmable characters. */
  function TrimStart(s: string): (r: string)
    ensures |r| <= |s|
    ensures r == [] || !IsTrimmable(r[0])
  {
    if s != [] && IsTrimmable(s[0]) then TrimStart(s[1..]) else s
  }

  /** TrimStart keeps a suffix of s and removes only trimmable characters. */
  lemma {:induction false} TrimStartSuffix(s: string)
    ensures TrimStart(s) == s[|s| - |TrimStart(s)|..]
    ensures forall k :: 0 <= k < |s| - |TrimStart(s)| ==> IsTrimmable(s[k])
  {
    if s != [] && IsTrimmable(s[0]) {
      TrimStartSuffix(s[1..]);
      assert s[1..][|s| - 1 - |TrimStart(s)|..] == s[|s| - |TrimStart(s)|..];
      assert forall k :: 1 <= k < |s| ==> s[k] == s[1..][k - 1];
    }
  }

  /** s without its trailing run of trimmable characters. */
  function TrimEnd(s: string): (r: string)
    ensures |r| <= |s|
    ensures r == [] || !IsTrimmable(r[|r| - 1])
  {
    if s != [] && IsTrimmable(s[|s| - 1]) then TrimEnd(s[..|s| - 1]) else s
  }

  /** TrimEnd keeps a prefix of s and removes only trimmable characters. */
  lemma {:induction false} TrimEndPrefix(s: string)
    ensures TrimEnd(s) == s[..|TrimEnd(s)|]
    ensures forall k :: |TrimEnd(s)| <= k < |s| ==> IsTrimmable(s[k])
  {
    if s != [] && IsTrimmable(s[|s| - 1]) {
      TrimEndPrefix(s[..|s| - 1]);
      assert s[..|s| - 1][..|TrimEnd(s)|] == s[..|TrimEnd(s)|];
    }
  }

  /** String.trim. */
  function Trim(s: string): (r: string)
    ensures |r| <= |s| && IsTrimmed(r)
  {
    var t := TrimStart(s);
    TrimEndPrefix(t);
    TrimEnd(t)
  }

  /** Trim keeps a contiguous run of s and removes only trimmable characters around it. */
  lemma TrimInfix(s: string)
    ensures var i := |s| - |TrimStart(s)|;
      i + |Trim(s)| <= |s| && Trim(s) == s[i..i + |Trim(s)|] &&
      (forall k :: 0 <= k < i ==> IsTrimmable(s[k])) &&
      (forall k :: i + |Trim(s)| <= k < |s| ==> IsTrimmable(s[k]))
  {
    var i := |s| - |TrimStart(s)|;
    TrimStartSuffix(s);
    TrimEndPrefix(TrimStart(s));
    assert forall k :: i <= k < |s| ==> s[k] == TrimStart(s)[k - i];
  }

  /** Trim introduces no character that was not already there. */
  lemma TrimKeepsCharacters(s: string, c: char)
    requires c in Trim(s)
    ensures c in s
  {
    TrimInfix(s);
    var i := |s| - |TrimStart(s)|;
    var k :| 0 <= k < |Trim(s)| && Trim(s)[k] == c;
    assert s[i + k] == c;
  }

  /** A string with no trimmable character at either end is its own trim. */
  lemma TrimOfTrimmed(s: string)
    requires IsTrimmed(s)
    ensures Trim(s) == s
  {
  }

  /** Trimming twice is trimming once. */
  lemma TrimIdempotent(s: string)
    ensures Trim(Trim(s)) == Trim(s)
  {
  }

  /** Text that begins with a kept character stops the leading trim: only a's own run goes. */
  lemma {:induction false} TrimStartAppend(a: string, b: string)
    requires TrimStart(a) != [] || (b != [] && !IsTrimmable(b[0]))
    ensures TrimStart(a + b) == TrimStart(a) + b
  {
    if a == [] {
      assert a + b == b;
    } else if IsTrimmable(a[0]) {
      assert (a + b)[1..] == a[1..] + b;
      TrimStartAppend(a[1..], b);
    }
  }

  /** Trailing trimmable characters appended to a are removed along with a's own. */
  lemma {:induction false} TrimEndTrimmableTail(a: string, t: string)
    requires forall k :: 0 <= k < |t| ==> IsTrimmable(t[k])
    ensures TrimEnd(a + t) == TrimEnd(a)
  {
    if t == [] {
      assert a + t == a;
    } else {
      assert (a + t)[..|a + t| - 1] == a + t[..|t| - 1];
      TrimEndTrimmableTail(a, t[..|t| - 1]);
    }
  }

  /** When b keeps a character, the trailing trim stays inside b. */
  lemma {:induction false} TrimEndPrepend(a: string, b: string)
    requires TrimEnd(b) != []
    ensures TrimEnd(a + b) == a + TrimEnd(b)
  {
    if IsTrimmable(b[|b| - 1]) {
      assert (a + b)[..|a + b| - 1] == a + b[..|b| - 1];
      TrimEndPrepend(a, b[..|b| - 1]);
    }
  }

  /** A string whose trim is not empty keeps a character at its end. */
  lemma TrimEndNonEmpty(s: string)
    requires Trim(s) != ""
    ensures TrimEnd(s) != ""
  {
    TrimStartSuffix(s);
    TrimEndPrefix(s);
  }

  /** Trimming text around a colon trims the front of the left part and the back of the right one. */
  lemma TrimAroundColon(a: string, b: string)
    requires TrimEnd(b) != []
    ensures Trim(a + ":" + b) == TrimStart(a) + ":" + TrimEnd(b)
  {
    TrimStartAppend(a, ":");
    TrimStartAppend(a + ":", b);
    TrimEndPrepend(TrimStart(a) + ":", b);
  }

  /** Trimming the back first does not change the trim. */
  lemma TrimOfTrimEnd(s: string)
    requires TrimEnd(s) != []
    ensures Trim(TrimEnd(s)) == Trim(s)
  {
    var e := TrimEnd(s);
    TrimEndPrefix(s);
    var tail := s[|e|..];
    assert s == e + tail;
    TrimStartSuffix(e);
    TrimStartAppend(e, tail);
    TrimEndTrimmableTail(TrimStart(e), tail);
  }

  /** Position of the first ':' in s, or |s| when there is none. */
  function FirstColon(s: string): (k: nat)
    ensures k <= |s| && ':' !in s[..k]
    ensures k < |s| ==> s[k] == ':'
  {
    if s == [] || s[0] == ':' then 0
    else
      var k := 1 + FirstColon(s[1..]);
      assert s[..k] == [s[0]] + s[1..][..k - 1];
      k
  }

  /** Every ':'-separated segment of s, empty ones included: one more segment than s has colons. */
  function SplitAll(s: string): (r: seq<string>)
    ensures |r| >= 1
  {
    if s == [] then [""]
    else
      var rest := SplitAll(s[1..]);
      if s[0] == ':' then [""] + rest else [[s[0]] + rest[0]] + rest[1..]
  }

  /** No segment holds a colon. */
  lemma {:induction false} SplitAllColonFree(s: string)
    ensures forall i :: 0 <= i < |SplitAll(s)| ==> ':' !in SplitAll(s)[i]
  {
    if s != [] {
      var rest := SplitAll(s[1..]);
      SplitAllColonFree(s[1..]);
      if s[0] != ':' {
        assert ':' !in [s[0]] + rest[0];
        assert forall i :: 1 <= i < |SplitAll(s)| ==> SplitAll(s)[i] == rest[i];
      } else {
        assert forall i :: 1 <= i < |SplitAll(s)| ==> SplitAll(s)[i] == rest[i - 1];
      }
    }
  }

  /** The segments put back together with ':' between them. */
  function Join(parts: seq<string>): string
    requires |parts| >= 1
  {
    if |parts| == 1 then parts[0] else parts[0] + ":" + Join(parts[1..])
  }

  /** parts without its trailing empty strings (what split does when its limit is zero). */
  function DropTrailingEmpty(parts: seq<string>): (r: seq<string>)
    ensures |r| <= |parts| && r == parts[..|r|]
    ensures r == [] || r[|r| - 1] != ""
  {
    if parts != [] && parts[|parts| - 1] == "" then DropTrailingEmpty(parts[..|parts| - 1]) else parts
  }

  /** Only empty strings are dropped. */
  lemma {:induction false} DropTrailingEmptyDropsEmpty(parts: seq<string>)
    ensures forall i :: |DropTrailingEmpty(parts)| <= i < |parts| ==> parts[i] == ""
  {
    if parts != [] && parts[|parts| - 1] == "" {
      DropTrailingEmptyDropsEmpty(parts[..|parts| - 1]);
    }
  }

  /** s.split(":"): the whole string when it has no colon, otherwise the segments without the trailing empty ones. */
  function Split(s: string): (r: seq<string>)
    ensures ':' in s ==> r == [] || r[|r| - 1] != ""
  {
    if ':' !in s then [s] else DropTrailingEmpty(SplitAll(s))
  }

  /** Joining the segments gives back the string that was split. */
  lemma {:induction false} SplitAllJoin(s: string)
    ensures Join(SplitAll(s)) == s
  {
    if s != [] {
      var rest := SplitAll(s[1..]);
      SplitAllJoin(s[1..]);
      if s[0] == ':' {
        assert ([""] + rest)[1..] == rest;
      } else if |rest| > 1 {
        var parts := [[s[0]] + rest[0]] + rest[1..];
        assert parts[1..] == rest[1..];
        assert Join(rest) == rest[0] + ":" + Join(rest[1..]);
      }
    }
  }

  /** Text without a colon in front of anything keeps its segments, the colon-free head glued to the first one. */
  lemma {:induction false} SplitAllPrefix(a: string, b: string)
    requires ':' !in a
    ensures SplitAll(a + b) == [a + SplitAll(b)[0]] + SplitAll(b)[1..]
  {
    if a != [] {
      assert (a + b)[1..] == a[1..] + b;
      SplitAllPrefix(a[1..], b);
      var rest := SplitAll(a[1..] + b);
      assert rest[0] == a[1..] + SplitAll(b)[0];
      assert rest[1..] == SplitAll(b)[1..];
      assert a[0] != ':' && (a + b)[0] == a[0];
      assert SplitAll(a + b) == [[a[0]] + rest[0]] + rest[1..];
      assert [a[0]] + (a[1..] + SplitAll(b)[0]) == a + SplitAll(b)[0];
    } else {
      assert a + b == b;
      assert a + SplitAll(b)[0] == SplitAll(b)[0];
      assert SplitAll(b) == [SplitAll(b)[0]] + SplitAll(b)[1..];
    }
  }

  /** Splitting colon-free segments joined with ':' gives back the segments. */
  lemma {:induction false} JoinSplitAll(parts: seq<string>)
    requires |parts| >= 1
    requires forall i :: 0 <= i < |parts| ==> ':' !in parts[i]
    ensures SplitAll(Join(parts)) == parts
  {
    if |parts| == 1 {
      SplitAllPrefix(parts[0], "");
      assert parts[0] + "" == parts[0];
    } else {
      var tail := Join(parts[1..]);
      JoinSplitAll(parts[1..]);
      assert (":" + tail)[1..] == tail;
      assert SplitAll(":" + tail) == [""] + parts[1..];
      assert parts[0] + ":" + tail == parts[0] + (":" + tail);
      SplitAllPrefix(parts[0], ":" + tail);
      assert parts[0] + "" == parts[0];
    }
  }

  /** The first segment is the text before the first colon. */
  lemma {:induction false} SplitAllFirst(s: string)
    ensures SplitAll(s)[0] == s[..FirstColon(s)]
  {
    if s != [] && s[0] != ':' {
      SplitAllFirst(s[1..]);
      assert s[..FirstColon(s)] == [s[0]] + s[1..][..FirstColon(s[1..])];
    }
  }

  /** A trailing colon adds one empty segment at the end. */
  lemma {:induction false} SplitAllAppendColon(s: string)
    ensures SplitAll(s + ":") == SplitAll(s) + [""]
  {
    if s == [] {
      assert s + ":" == ":";
      assert SplitAll(":"[1..]) == [""];
    } else {
      assert (s + ":")[1..] == s[1..] + ":";
      SplitAllAppendColon(s[1..]);
    }
  }

  /** Every segment is empty exactly when the string is made of colons only. */
  lemma {:induction false} SplitAllEmptySegments(s: string)
    ensures (forall i :: 0 <= i < |SplitAll(s)| ==> SplitAll(s)[i] == "")
        <==> (forall k :: 0 <= k < |s| ==> s[k] == ':')
  {
    if s != [] {
      var rest := SplitAll(s[1..]);
      SplitAllEmptySegments(s[1..]);
      var parts := SplitAll(s);
      var tail := s[1..];
      var allColons := forall k :: 0 <= k < |s| ==> s[k] == ':';
      var tailColons := forall k :: 0 <= k < |tail| ==> tail[k] == ':';
      var allEmpty := forall i :: 0 <= i < |parts| ==> parts[i] == "";
      var restEmpty := forall i :: 0 <= i < |rest| ==> rest[i] == "";
      if s[0] == ':' {
        assert parts == [""] + rest;
        assert allEmpty <==> restEmpty by {
          assert forall i :: 1 <= i < |parts| ==> parts[i] == rest[i - 1];
          assert forall i :: 0 <= i < |rest| ==> rest[i] == parts[i + 1];
        }
        assert allColons <==> tailColons by {
          assert forall k :: 1 <= k < |s| ==> s[k] == tail[k - 1];
          assert forall k :: 0 <= k < |tail| ==> tail[k] == s[k + 1];
        }
      } else {
        assert parts[0] != "";
        assert !allColons;
      }
    }
  }

  /** split(":") yields no segment at all exactly when the string is non-empty and made of colons only. */
  lemma SplitEmptyIff(s: string)
    ensures Split(s) == [] <==> s != "" && forall k :: 0 <= k < |s| ==> s[k] == ':'
  {
    var parts := SplitAll(s);
    SplitAllEmptySegments(s);
    DropTrailingEmptyDropsEmpty(parts);
    if ':' in s {
      var r := DropTrailingEmpty(parts);
      if r != [] {
        assert parts[|r| - 1] != "";
      }
    } else if s != "" {
      assert s[0] != ':';
    }
  }

  /** A trailing colon does not change what split(":") yields of a non-empty string. */
  lemma SplitAppendColon(s: string)
    requires s != ""
    ensures Split(s + ":") == Split(s)
  {
    SplitAllAppendColon(s);
    assert ':' in s + ":" by { assert (s + ":")[|s|] == ':'; }
    var parts := SplitAll(s) + [""];
    assert parts[..|parts| - 1] == SplitAll(s);
    assert DropTrailingEmpty(parts) == DropTrailingEmpty(SplitAll(s));
    if ':' !in s {
      SplitAllPrefix(s, "");
      assert s + "" == s;
      assert SplitAll(s) == [s];
      assert DropTrailingEmpty([s]) == [s];
    }
  }

  /** Colon-free, non-empty host and port texts split back into exactly those two segments. */
  lemma SplitHostPort(host: string, port: string)
    requires ':' !in host && ':' !in port && port != ""
    ensures Split(host + ":" + port) == [host, port]
  {
    var s := host + ":" + port;
    assert s[|host|] == ':';
    JoinSplitAll([host, port]);
    assert Join([host, port]) == s by {
      assert [host, port][1..] == [port];
    }
  }

  // Integer.parseInt and Integer.toString, radix ten

  const Int32Min: int := -0x8000_0000
  const Int32Max: int := 0x7fff_ffff

  predicate IsDigit(c: char) { '0' <= c <= '9' }

  predicate AllDigits(s: string) { forall k :: 0 <= k < |s| ==> IsDigit(s[k]) }

  /** The value of a run of decimal digits, most significant first. */
  function DigitsValue(s: string): nat
    requires AllDigits(s)
  {
    if s == [] then 0 else DigitsValue(s[..|s| - 1]) * 10 + (s[|s| - 1] as int - '0' as int)
  }

  /** Integer.parseInt: an optional sign, at least one digit, and a value that fits in 32 bits. */
  function ParseInt(s: string): (r: Result<int>)
    ensures r.Success? ==> Int32Min <= r.value <= Int32Max
    ensures r.Failure? ==> r.error == NumberFormat
  {
    if s == [] then Failure(NumberFormat)
    else
      var digits := if s[0] == '-' || s[0] == '+' then s[1..] else s;
      if digits == [] || !AllDigits(digits) then Failure(NumberFormat)
      else
        var v: int := if s[0] == '-' then -(DigitsValue(digits) as int) else DigitsValue(digits);
        if Int32Min <= v <= Int32Max then Success(v) else Failure(NumberFormat)
  }

  function DigitChar(d: nat): char
    requires d < 10
  {
    ('0' as int + d) as char
  }

  /** Decimal digits of n without leading zeros. */
  function FormatNat(n: nat): (s: string)
    ensures s != [] && AllDigits(s)
  {
    if n < 10 then [DigitChar(n)] else FormatNat(n / 10) + [DigitChar(n % 10)]
  }

  /** Integer.toString. */
  function FormatInt(n: int): string {
    if n < 0 then "-" + FormatNat(-n) else FormatNat(n)
  }

  lemma {:induction false} DigitsValueFormatNat(n: nat)
    ensures DigitsValue(FormatNat(n)) == n
  {
    if n >= 10 {
      var s := FormatNat(n);
      assert s[..|s| - 1] == FormatNat(n / 10);
      DigitsValueFormatNat(n / 10);
    }
  }

  /** parseInt reads back every 32-bit value that toString writes. */
  lemma ParseIntFormatInt(n: int)
    requires Int32Min <= n <= Int32Max
    ensures ParseInt(FormatInt(n)) == Success(n)
  {
    if n < 0 {
      var digits := FormatNat(-n);
      var s := "-" + digits;
      assert s[0] == '-' && s[1..] == digits;
      DigitsValueFormatNat(-n);
      assert ParseInt(s) == Success(n);
    } else {
      var digits := FormatNat(n);
      assert IsDigit(digits[0]);
      DigitsValueFormatNat(n);
      assert ParseInt(digits) == Success(n);
    }
  }

  /** What toString writes has no colon and nothing trim would remove. */
  lemma FormatIntShape(n: int)
    ensures FormatInt(n) != "" && ':' !in FormatInt(n) && IsTrimmed(FormatInt(n))
  {
  }
}
