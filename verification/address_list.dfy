/** The whole address list of configureHostnames: one result per entry, in order, the first failure winning. */
module AddressList {
  import opened Outcomes
  import opened JavaText
  import opened Addresses

  /** The values in order when every result succeeds, otherwise the first failure. */
  function CollectAll<T>(results: seq<Result<T>>): (r: Result<seq<T>>)
    ensures r.Success? ==> |r.value| == |results|
  {
    if results == [] then Success([])
    else
      match CollectAll(results[..|results| - 1])
      case Failure(e) => Failure(e)
      case Success(prefix) =>
        match results[|results| - 1]
        case Failure(e) => Failure(e)
        case Success(a) => Success(prefix + [a])
  }

  /** Collecting one more result: a failure so far stays, otherwise the new result decides. */
  lemma CollectAllSnoc<T>(results: seq<Result<T>>, last: Result<T>)
    ensures CollectAll(results + [last]) ==
      if CollectAll(results).Failure? then CollectAll(results)
      else if last.Failure? then Failure(last.error)
      else Success(CollectAll(results).value + [last.value])
  {
  }

  /** Collecting succeeds exactly when every result does, and then keeps each value in place. */
  lemma {:induction false} CollectAllSuccess<T>(results: seq<Result<T>>)
    ensures CollectAll(results).Success? <==> forall i :: 0 <= i < |results| ==> results[i].Success?
    ensures CollectAll(results).Success? ==>
      forall i :: 0 <= i < |results| ==> results[i] == Success(CollectAll(results).value[i])
  {
    if results != [] {
      var n := |results| - 1;
      var init := results[..n];
      CollectAllSuccess(init);
      assert forall i :: 0 <= i < n ==> init[i] == results[i];
      if CollectAll(init).Failure? {
        var k :| 0 <= k < n && !init[k].Success?;
        assert !results[k].Success?;
      } else if results[n].Success? {
        var prefix := CollectAll(init).value;
        assert forall i :: 0 <= i < n ==> (prefix + [results[n].value])[i] == prefix[i];
      }
    }
  }

  /** A failed collection reports the error of the first failing result. */
  lemma {:induction false} CollectAllFailure<T>(results: seq<Result<T>>)
    requires CollectAll(results).Failure?
    ensures exists k :: 0 <= k < |results| && results[k] == Failure(CollectAll(results).error) &&
                        forall i :: 0 <= i < k ==> results[i].Success?
  {
    var n := |results| - 1;
    var init := results[..n];
    assert forall i :: 0 <= i < n ==> init[i] == results[i];
    if CollectAll(init).Failure? {
      CollectAllFailure(init);
      var k :| 0 <= k < n && init[k] == Failure(CollectAll(init).error) &&
               forall i :: 0 <= i < k ==> init[i].Success?;
      assert results[k] == Failure(CollectAll(results).error);
    } else {
      CollectAllSuccess(init);
      assert results[n] == Failure(CollectAll(results).error);
    }
  }

  /** Once a prefix fails, the whole sequence fails with the same error. */
  lemma {:induction false} CollectAllFailedPrefix<T>(results: seq<Result<T>>, j: nat)
    requires j <= |results| && CollectAll(results[..j]).Failure?
    ensures CollectAll(results) == CollectAll(results[..j])
  {
    if j < |results| {
      var init := results[..|results| - 1];
      assert init[..j] == results[..j];
      CollectAllFailedPrefix(init, j);
    } else {
      assert results[..j] == results;
    }
  }

  /** The outcome of each entry, in order. */
  function ParseEach(entries: seq<string>): (r: seq<Result<Address>>)
    ensures |r| == |entries|
  {
    if entries == [] then [] else ParseEach(entries[..|entries| - 1]) + [ParseEntry(entries[|entries| - 1])]
  }

  /** Result i is the outcome of entry i. */
  lemma {:induction false} ParseEachAt(entries: seq<string>, i: nat)
    requires i < |entries|
    ensures ParseEach(entries)[i] == ParseEntry(entries[i])
  {
    var n := |entries| - 1;
    if i < n {
      ParseEachAt(entries[..n], i);
    }
  }

  /** Every result is the outcome of its entry. */
  lemma ParseEachAll(entries: seq<string>)
    ensures forall i :: 0 <= i < |entries| ==> ParseEach(entries)[i] == ParseEntry(entries[i])
  {
    forall i | 0 <= i < |entries| ensures ParseEach(entries)[i] == ParseEntry(entries[i]) {
      ParseEachAt(entries, i);
    }
  }

  /** The whole list, entry by entry in order; the first entry that fails decides the error. */
  function ParseAll(entries: seq<string>): (r: Result<seq<Address>>)
    ensures r.Success? ==> |r.value| == |entries|
  {
    CollectAll(ParseEach(entries))
  }

  /** Parsing one more entry of a list whose first i entries parsed: either the whole list fails
      with that entry's error, or the first i + 1 entries parse with its address appended. */
  lemma ParseAllStep(entries: seq<string>, i: nat, prefix: seq<Address>)
    requires i < |entries| && ParseAll(entries[..i]) == Success(prefix)
    ensures ParseEntry(entries[i]).Failure? ==> ParseAll(entries) == Failure(ParseEntry(entries[i]).error)
    ensures ParseEntry(entries[i]).Success? ==>
      ParseAll(entries[..i + 1]) == Success(prefix + [ParseEntry(entries[i]).value])
  {
    var results := ParseEach(entries);
    ParseEachAt(entries, i);
    ParseEachPrefix(entries, i);
    ParseEachPrefix(entries, i + 1);
    assert results[..i + 1] == results[..i] + [ParseEntry(entries[i])];
    CollectAllSnoc(results[..i], ParseEntry(entries[i]));
    if ParseEntry(entries[i]).Failure? {
      CollectAllFailedPrefix(results, i + 1);
    }
  }

  /** The results of a prefix are the prefix of the results. */
  lemma {:induction false} ParseEachPrefix(entries: seq<string>, j: nat)
    requires j <= |entries|
    ensures ParseEach(entries[..j]) == ParseEach(entries)[..j]
  {
    if j < |entries| {
      var n := |entries| - 1;
      assert entries[..n][..j] == entries[..j];
      ParseEachPrefix(entries[..n], j);
    } else {
      assert entries[..j] == entries;
    }
  }

  /** A successful parse yields one address per entry, address i from entry i. */
  lemma ParseAllSuccess(entries: seq<string>)
    ensures ParseAll(entries).Success? <==> forall i :: 0 <= i < |entries| ==> ParseEntry(entries[i]).Success?
    ensures ParseAll(entries).Success? ==>
      |ParseAll(entries).value| == |entries| && forall i :: 0 <= i < |entries| ==> ParseEntry(entries[i]) == Success(ParseAll(entries).value[i])
  {
    CollectAllSuccess(ParseEach(entries));
    ParseEachAll(entries);
  }

  /** A failed parse reports the error of the first entry that fails. */
  lemma ParseAllFailure(entries: seq<string>)
    requires ParseAll(entries).Failure?
    ensures exists k :: 0 <= k < |entries| && ParseEntry(entries[k]) == Failure(ParseAll(entries).error) &&
                        forall i :: 0 <= i < k ==> ParseEntry(entries[i]).Success?
  {
    CollectAllFailure(ParseEach(entries));
    ParseEachAll(entries);
    var results := ParseEach(entries);
    var k :| 0 <= k < |results| && results[k] == Failure(CollectAll(results).error) &&
             forall i :: 0 <= i < k ==> results[i].Success?;
    assert ParseEntry(entries[k]) == Failure(ParseAll(entries).error);
  }

  /** The two addresses of a two-node configuration, one with and one without a port. */
  lemma TwoNodeConfiguration()
    ensures ParseAll(["es1:9300", "es2"]) == Success([Address("es1", 9300), Address("es2", DefaultPort)])
  {
    var first, second := Address("es1", 9300), Address("es2", DefaultPort);
    ExampleHostPort();
    ExampleBareHost();
    ParseAllPair("es1:9300", "es2", first, second);
  }

  /** Two entries that parse give their two addresses in order. */
  lemma ParseAllPair(a: string, b: string, x: Address, y: Address)
    requires ParseEntry(a) == Success(x) && ParseEntry(b) == Success(y)
    ensures ParseAll([a, b]) == Success([x, y])
  {
    var entries := [a, b];
    assert entries[0] == a && entries[1] == b;
    ParseAllSuccess(entries);
    var r := ParseAll(entries);
    assert r.Success? && |r.value| == 2;
    assert r.value[0] == x && r.value[1] == y;
    assert r.value == [x, y];
  }
}
