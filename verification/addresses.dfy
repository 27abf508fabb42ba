/** Turning the configured "host[:port]" strings into server addresses (configureHostnames). */
module Addresses {
  import opened Outcomes
  import opened JavaText

  /** DEFAULT_PORT of the sink's constants: the cluster's transport port. */
  const DefaultPort: int := 9300

  /** A server address as the client keeps it: a host name and a port. */
  datatype Address = Address(host: string, port: int)

  /** One entry: trimmed, split on ':', the first segment trimmed as the host;
      the trimmed second segment is parsed as the port only when there are exactly two segments. */
  function ParseEntry(entry: string): (r: Result<Address>)
    ensures r.Failure? ==> r.error == IndexOutOfBounds || r.error == NumberFormat
  {
    var hostPort := Split(Trim(entry));
    if |hostPort| == 0 then Failure(IndexOutOfBounds)
    else
      var host := Trim(hostPort[0]);
      if |hostPort| == 2 then
        match ParseInt(Trim(hostPort[1]))
        case Failure(e) => Failure(e)
        case Success(port) => Success(Address(host, port))
      else Success(Address(host, DefaultPort))
  }

  /** "host:port" gives exactly that host and port. */
  lemma ParseEntryHostPort(host: string, port: int)
    requires IsTrimmed(host) && ':' !in host
    requires Int32Min <= port <= Int32Max
    ensures ParseEntry(host + ":" + FormatInt(port)) == Success(Address(host, port))
  {
    var p := FormatInt(port);
    var s := host + ":" + p;
    FormatIntShape(port);
    assert s[|s| - 1] == p[|p| - 1];
    assert s[0] == if host == [] then ':' else host[0];
    TrimOfTrimmed(s);
    SplitHostPort(host, p);
    TrimOfTrimmed(host);
    TrimOfTrimmed(p);
    ParseIntFormatInt(port);
  }

  /** "host:text" where the text is not a 32-bit integer raises NumberFormatException. */
  lemma ParseEntryBadPort(host: string, port: string)
    requires IsTrimmed(host) && ':' !in host
    requires IsTrimmed(port) && ':' !in port && port != ""
    requires ParseInt(port).Failure?
    ensures ParseEntry(host + ":" + port) == Failure(NumberFormat)
  {
    var s := host + ":" + port;
    assert s[|s| - 1] == port[|port| - 1];
    assert s[0] == if host == [] then ':' else host[0];
    TrimOfTrimmed(s);
    SplitHostPort(host, port);
    TrimOfTrimmed(port);
  }

  /** Exactly two segments, whatever whitespace surrounds them: the host is the trimmed first
      segment and the port is parseInt of the trimmed second one, or its NumberFormatException. */
  lemma ParseEntryTwoSegments(host: string, port: string)
    requires ':' !in host && ':' !in port && Trim(port) != ""
    ensures ParseEntry(host + ":" + port) ==
      match ParseInt(Trim(port))
      case Failure(e) => Failure(e)
      case Success(p) => Success(Address(Trim(host), p))
  {
    var h, e := TrimStart(host), TrimEnd(port);
    TrimEndNonEmpty(port);
    TrimAroundColon(host, port);
    TrimStartSuffix(host);
    TrimEndPrefix(port);
    assert ':' !in h by {
      assert forall k :: 0 <= k < |h| ==> h[k] == host[|host| - |h| + k];
    }
    assert ':' !in e by {
      assert forall k :: 0 <= k < |e| ==> e[k] == port[k];
    }
    SplitHostPort(h, e);
    TrimOfTrimEnd(port);
  }

  /** Three or more segments, the last non-empty: the port is DEFAULT_PORT whatever the
      later segments hold. */
  lemma ParseEntryManyColons(parts: seq<string>)
    requires |parts| >= 3 && parts[|parts| - 1] != ""
    requires forall i :: 0 <= i < |parts| ==> ':' !in parts[i]
    requires IsTrimmed(Join(parts))
    ensures ParseEntry(Join(parts)) == Success(Address(Trim(parts[0]), DefaultPort))
  {
    var s := Join(parts);
    TrimOfTrimmed(s);
    JoinSplitAll(parts);
    assert ':' in s by {
      assert s == parts[0] + ":" + Join(parts[1..]);
      assert s[|parts[0]|] == ':';
    }
    assert Split(s) == parts;
  }

  /** An entry without a colon is a host alone, on the default port. */
  lemma ParseEntryBareHost(entry: string)
    requires ':' !in entry
    ensures ParseEntry(entry) == Success(Address(Trim(entry), DefaultPort))
  {
    TrimIdempotent(entry);
    if ':' in Trim(entry) {
      TrimKeepsCharacters(entry, ':');
    }
  }

  /** A trailing colon changes nothing: "host:" is the host on the default port, "host:port:" still reads the port. */
  lemma ParseEntryTrailingColon(entry: string)
    requires entry != "" && IsTrimmed(entry)
    ensures ParseEntry(entry + ":") == ParseEntry(entry)
  {
    var s := entry + ":";
    assert s[0] == entry[0] && s[|s| - 1] == ':';
    TrimOfTrimmed(s);
    TrimOfTrimmed(entry);
    SplitAppendColon(entry);
  }

  /** Indexing hostPort[0] fails exactly on an entry that trims to nothing but colons. */
  lemma ParseEntryIndexFailure(entry: string)
    ensures ParseEntry(entry) == Failure(IndexOutOfBounds)
        <==> Trim(entry) != "" && forall k :: 0 <= k < |Trim(entry)| ==> Trim(entry)[k] == ':'
  {
    SplitEmptyIff(Trim(entry));
  }

  /** Whatever the rest of the entry holds, the host is the trimmed text before its first colon. */
  lemma ParseEntryHost(entry: string)
    requires ParseEntry(entry).Success?
    ensures ParseEntry(entry).value.host == Trim(Trim(entry)[..FirstColon(Trim(entry))])
  {
    var t := Trim(entry);
    var parts := Split(t);
    assert |parts| > 0 && ParseEntry(entry).value.host == Trim(parts[0]);
    if ':' in t {
      assert parts[0] == SplitAll(t)[0];
      SplitAllFirst(t);
    } else {
      assert FirstColon(t) == |t|;
      assert t[..|t|] == t;
    }
  }

  // Concrete entries

  lemma ExampleHostPort()
    ensures ParseEntry("es1:9300") == Success(Address("es1", 9300))
  {
    assert FormatNat(9300) == "9300" by {
      assert FormatNat(9) == "9";
      assert FormatNat(93) == "93";
      assert FormatNat(930) == "930";
    }
    assert "es1" + ":" + FormatInt(9300) == "es1:9300";
    ParseEntryHostPort("es1", 9300);
  }

  lemma ExampleBareHost()
    ensures ParseEntry("es2") == Success(Address("es2", DefaultPort))
  {
  }

  /** Two colons are not rejected: the port falls back to the default. */
  lemma ExampleManyColons()
    ensures ParseEntry("a:b:c") == Success(Address("a", DefaultPort))
  {
    var s := "a:b:c";
    TrimOfTrimmed(s);
    TrimOfTrimmed("a");
    JoinSplitAll(["a", "b", "c"]);
    assert Join(["a", "b", "c"]) == s by {
      assert ["a", "b", "c"][1..] == ["b", "c"];
      assert ["b", "c"][1..] == ["c"];
    }
    assert s[1] == ':';
    assert Split(s) == ["a", "b", "c"];
  }

  /** An empty entry is not rejected: it becomes an empty host on the default port. */
  lemma ExampleEmptyEntry()
    ensures ParseEntry("") == Success(Address("", DefaultPort))
  {
  }

  /** Whitespace around either segment is trimmed away, and parseInt takes a sign and leading zeros. */
  lemma ExampleSpacedEntry()
    ensures ParseEntry("h : +09") == Success(Address("h", 9))
  {
    var host, port := "h ", " +09";
    SpacedTokens(host, port);
    ParseEntryTwoSegments(host, port);
    assert host + ":" + port == "h : +09";
  }

  /** The two tokens of the spaced example, trimmed and read. */
  lemma SpacedTokens(host: string, port: string)
    requires host == "h " && port == " +09"
    ensures ':' !in host && ':' !in port
    ensures Trim(host) == "h" && Trim(port) == "+09" && ParseInt("+09") == Success(9)
  {
    assert TrimStart(host) == host;
    assert TrimEnd(host) == host[..1];
    assert TrimStart(port) == port[1..];
    assert TrimEnd(port[1..]) == port[1..];
    assert "+09"[1..] == "09" && "09"[..1] == "0" && "0"[..0] == "";
  }

  /** A trailing colon is dropped by split, so the port is the default. */
  lemma ExampleTrailingColon()
    ensures ParseEntry("host:") == Success(Address("host", DefaultPort))
  {
    ParseEntryTrailingColon("host");
    ParseEntryBareHost("host");
    TrimOfTrimmed("host");
    assert "host" + ":" == "host:";
  }

  /** A port that is not a number raises NumberFormatException. */
  lemma ExampleBadPort()
    ensures ParseEntry("es1:x") == Failure(NumberFormat)
  {
  }

  /** A lone colon splits into nothing, and reading the host fails. */
  lemma ExampleLoneColon()
    ensures ParseEntry(":") == Failure(IndexOutOfBounds)
  {
  }
}
