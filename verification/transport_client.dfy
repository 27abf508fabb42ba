/** ElasticSearchTransportClient: a batching bulk-indexing client over the REST client library.
    The library (building a handle, bulk submission, closing) is modelled by three methods that
    keep a record of what the client asked of it. */
module Client {
  import opened Outcomes
  import opened Addresses
  import opened AddressList

  /** One endpoint handed to the REST client builder. */
  datatype HttpHost = HttpHost(hostname: string, port: int, scheme: string)

  /** A REST client handle; the library gives every handle it builds its own id. */
  datatype Handle = Handle(id: nat, hosts: seq<HttpHost>)

  /** One index action of a bulk request: the target index and the serialized document. */
  datatype IndexRequest<Doc> = IndexRequest(index: string, source: Doc)

  /** The plain-http endpoint for a server address. */
  function ToHttpHost(a: Address): (h: HttpHost)
    ensures h.hostname == a.host && h.port == a.port && h.scheme == "http"
  {
    HttpHost(a.host, a.port, "http")
  }

  /** The endpoints for a list of server addresses, in the same order. */
  function HostsOf(addresses: seq<Address>): (hosts: seq<HttpHost>)
    ensures |hosts| == |addresses|
  {
    seq(|addresses|, i requires 0 <= i < |addresses| => ToHttpHost(addresses[i]))
  }

  /** The handle a close acts on, if there is one. */
  function HandlesIn(h: Option<Handle>): seq<Handle> {
    if h.Some? then [h.value] else []
  }

  /** The host array of openClient: one http endpoint per server address, same order, host and port. */
  method BuildHttpHosts(addresses: array<Address>) returns (hosts: array<HttpHost>)
    ensures fresh(hosts) && hosts.Length == addresses.Length
    ensures forall i :: 0 <= i < hosts.Length ==>
      hosts[i].hostname == addresses[i].host && hosts[i].port == addresses[i].port && hosts[i].scheme == "http"
  {
    hosts := new HttpHost[addresses.Length];
    for i := 0 to addresses.Length
      invariant forall j :: 0 <= j < i ==> hosts[j] == ToHttpHost(addresses[j])
    {
      hosts[i] := ToHttpHost(addresses[i]);
    }
  }

  class ElasticSearchTransportClient<Event, Doc, Factory> {
    var serverAddresses: array<Address>
    /** The event serializer; null unless the serializer-bound constructor set it. */
    var serializer: Option<Event -> Option<Doc>>
    /** The request-builder factory; stored and never used by this class. */
    var indexBuilder: Option<Factory>
    /** The pending bulk request: null until the first event, then the index actions in order. */
    var bulkRequest: Option<seq<IndexRequest<Doc>>>
    /** The current REST client handle, or null. */
    var client: Option<Handle>

    // What the REST library has been asked by this client, oldest first.
    var built: seq<Handle>
    var closedHandles: seq<Handle>
    var bulkCalls: seq<(Handle, Option<seq<IndexRequest<Doc>>>)>

    /** The handle bookkeeping: every handle built is distinct, none is closed twice,
        and the only handle built and not closed is the current one. */
    ghost predicate Valid()
      reads this`built, this`closedHandles, this`client
    {
      (forall i :: 0 <= i < |built| ==> built[i].id == i) &&
      (forall i, j :: 0 <= i < j < |closedHandles| ==> closedHandles[i] != closedHandles[j]) &&
      (forall h :: h in closedHandles ==> h in built) &&
      (client.Some? ==> client.value in built && client.value !in closedHandles) &&
      (forall h :: h in built && h !in closedHandles ==> client == Some(h))
    }

    /** The handles built and not yet closed. */
    ghost function LiveHandles(): set<Handle>
      reads this`built, this`closedHandles
    {
      set h | h in built && h !in closedHandles
    }

    /** The index actions waiting for the next execute (none while the request is null). */
    function Pending(): seq<IndexRequest<Doc>>
      reads this`bulkRequest
    {
      if bulkRequest.Some? then bulkRequest.value else []
    }

    /** A fresh instance: every reference field null, nothing asked of the library yet. */
    constructor ()
      ensures Valid() && serverAddresses.Length == 0
      ensures serializer.None? && indexBuilder.None? && bulkRequest.None? && client.None?
      ensures built == [] && closedHandles == [] && bulkCalls == []
    {
      serverAddresses := new Address[0];
      serializer := None;
      indexBuilder := None;
      bulkRequest := None;
      client := None;
      built := [];
      closedHandles := [];
      bulkCalls := [];
    }

    /** new RestHighLevelClient(RestClient.builder(hosts)); the builder refuses an empty host list. */
    method BuildHandle(hosts: seq<HttpHost>) returns (r: Result<Handle>)
      modifies this`built
      ensures |hosts| == 0 ==> r == Failure(IllegalArgument) && built == old(built)
      ensures |hosts| > 0 ==> r == Success(Handle(|old(built)|, hosts)) && built == old(built) + [r.value]
    {
      if |hosts| == 0 {
        r := Failure(IllegalArgument);
      } else {
        var h := Handle(|built|, hosts);
        built := built + [h];
        r := Success(h);
      }
    }

    /** client.close(): it may raise an IOException; either way the call is on record. */
    method CloseHandle(h: Handle) returns (ioFailed: bool)
      modifies this`closedHandles
      ensures closedHandles == old(closedHandles) + [h]
    {
      closedHandles := closedHandles + [h];
      ioFailed :| true;
    }

    /** client.bulk(request, DEFAULT): a null request raises at once; otherwise the cluster may accept
        the request or the call may fail. */
    method SubmitBulk(h: Handle, request: Option<seq<IndexRequest<Doc>>>) returns (r: Outcome)
      modifies this`bulkCalls
      ensures bulkCalls == old(bulkCalls) + [(h, request)]
      ensures request.None? ==> r == Fail(NullPointer)
      ensures request.Some? && r.Fail? ==> r.error == Transport
    {
      bulkCalls := bulkCalls + [(h, request)];
      if request.None? {
        r := Fail(NullPointer);
      } else {
        var accepted: bool :| true;
        r := if accepted then Pass else Fail(Transport);
      }
    }

    /** configureHostnames: a new address array with one address per entry, filled in order;
        the first entry that fails to parse ends the loop with its exception. */
    method ConfigureHostnames(hostNames: seq<string>) returns (r: Outcome)
      modifies this`serverAddresses
      ensures fresh(serverAddresses) && serverAddresses.Length == |hostNames|
      ensures r.Pass? <==> ParseAll(hostNames).Success?
      ensures r.Pass? ==> serverAddresses[..] == ParseAll(hostNames).value
      ensures r.Fail? ==> r.error == ParseAll(hostNames).error
    {
      var addresses := new Address[|hostNames|];
      serverAddresses := addresses;
      for i := 0 to |hostNames|
        invariant serverAddresses == addresses
        invariant ParseAll(hostNames[..i]) == Success(addresses[..i])
      {
        var parsed := ParseEntry(hostNames[i]);
        ParseAllStep(hostNames, i, addresses[..i]);
        if parsed.Failure? {
          return Fail(parsed.error);
        }
        addresses[i] := parsed.value;
        assert addresses[..i + 1] == addresses[..i] + [parsed.value];
      }
      assert hostNames[..|hostNames|] == hostNames;
      assert addresses[..|hostNames|] == addresses[..];
      r := Pass;
    }

    /** close: a present handle is closed (an IOException is swallowed) and the field is nulled;
        a second call finds nothing to close. */
    method Close()
      requires Valid()
      modifies this`client, this`closedHandles
      ensures Valid() && client.None?
      ensures closedHandles == old(closedHandles) + HandlesIn(old(client))
    {
      if client.Some? {
        var ioFailed := CloseHandle(client.value);
      }
      client := None;
    }

    /** addEvent: creates the bulk request if it is null, then appends one index action for the
        serialized event, targeting the index the name builder picks. */
    method AddEvent(event: Event, indexName: Event -> string, indexType: string, ttlMs: int) returns (r: Outcome)
      modifies this`bulkRequest
      ensures bulkRequest.Some?
      ensures serializer.None? ==> r == Fail(NullPointer) && Pending() == old(Pending())
      ensures serializer.Some? && serializer.value(event).None? ==>
        r == Fail(Serialization) && Pending() == old(Pending())
      ensures serializer.Some? && serializer.value(event).Some? ==>
        r == Pass && Pending() == old(Pending()) + [IndexRequest(indexName(event), serializer.value(event).value)]
    {
      if bulkRequest.None? {
        bulkRequest := Some([]);
      }
      if serializer.None? {
        return Fail(NullPointer);
      }
      var content := serializer.value(event);
      if content.None? {
        return Fail(Serialization);
      }
      var request := IndexRequest(indexName(event), content.value);
      bulkRequest := Some(bulkRequest.value + [request]);
      r := Pass;
    }

    /** execute: submits the pending request on the current handle and, whatever happens,
        leaves a new empty request behind; the exception, if any, reaches the caller. */
    method Execute() returns (r: Outcome)
      modifies this`bulkRequest, this`bulkCalls
      ensures bulkRequest == Some([])
      ensures client.None? ==> r == Fail(NullPointer) && bulkCalls == old(bulkCalls)
      ensures client.Some? ==> bulkCalls == old(bulkCalls) + [(client.value, old(bulkRequest))]
      ensures client.Some? && old(bulkRequest).None? ==> r == Fail(NullPointer)
      ensures client.Some? && old(bulkRequest).Some? && r.Fail? ==> r.error == Transport
      ensures r.Fail? ==> r.error == NullPointer || r.error == Transport
    {
      if client.None? {
        r := Fail(NullPointer);
      } else {
        r := SubmitBulk(client.value, bulkRequest);
      }
      bulkRequest := Some([]);
    }

    /** openClient: builds a handle on the http endpoints of the server addresses, then closes the
        previous handle, if any (an IOException is swallowed), and makes the new one current.
        The cluster name is not used. */
    method OpenClient(clusterName: string) returns (r: Outcome)
      requires Valid()
      modifies this`client, this`built, this`closedHandles
      ensures Valid()
      ensures serverAddresses.Length == 0 ==>
        r == Fail(IllegalArgument) &&
        client == old(client) && built == old(built) && closedHandles == old(closedHandles)
      ensures serverAddresses.Length > 0 ==>
        r == Pass &&
        client == Some(Handle(|old(built)|, HostsOf(serverAddresses[..]))) &&
        built == old(built) + [client.value] &&
        closedHandles == old(closedHandles) + HandlesIn(old(client))
    {
      var hosts := BuildHttpHosts(serverAddresses);
      assert hosts[..] == HostsOf(serverAddresses[..]);
      var transportClient := BuildHandle(hosts[..]);
      if transportClient.Failure? {
        return Fail(transportClient.error);
      }
      if client.Some? {
        var ioFailed := CloseHandle(client.value);
      }
      client := Some(transportClient.value);
      r := Pass;
    }

    /** The first two statements of both production constructors: parse the host names, then
        open a client over them; a failure of the first ends the constructor. */
    method Connect(hostNames: seq<string>, clusterName: string) returns (r: Outcome)
      requires Valid() && client.None? && built == [] && closedHandles == []
      modifies this`serverAddresses, this`client, this`built, this`closedHandles
      ensures Valid()
      ensures r.Pass? <==> ParseAll(hostNames).Success? && |hostNames| > 0
      ensures r.Fail? ==>
        r.error == if ParseAll(hostNames).Failure? then ParseAll(hostNames).error else IllegalArgument
      ensures r.Pass? ==>
        serverAddresses[..] == ParseAll(hostNames).value &&
        client == Some(Handle(0, HostsOf(serverAddresses[..]))) &&
        built == [client.value] && closedHandles == []
    {
      var configured := ConfigureHostnames(hostNames);
      if configured.Fail? {
        return configured;
      }
      r := OpenClient(clusterName);
    }

    /** The constructor taking host names, a cluster name and an event serializer. */
    static method NewWithSerializer(hostNames: seq<string>, clusterName: string, serializer: Event -> Option<Doc>)
      returns (r: Result<ElasticSearchTransportClient<Event, Doc, Factory>>)
      ensures r.Success? <==> ParseAll(hostNames).Success? && |hostNames| > 0
      ensures r.Failure? ==>
        r.error == if ParseAll(hostNames).Failure? then ParseAll(hostNames).error else IllegalArgument
      ensures r.Success? ==>
        var c := r.value;
        fresh(c) && c.Valid() &&
        c.serverAddresses[..] == ParseAll(hostNames).value &&
        c.client == Some(Handle(0, HostsOf(c.serverAddresses[..]))) &&
        c.built == [c.client.value] && c.closedHandles == [] && c.bulkCalls == [] &&
        c.bulkRequest.None? && c.serializer == Some(serializer) && c.indexBuilder.None?
    {
      var c := new ElasticSearchTransportClient<Event, Doc, Factory>();
      var connected := c.Connect(hostNames, clusterName);
      if connected.Fail? {
        return Failure(connected.error);
      }
      c.serializer := Some(serializer);
      r := Success(c);
    }

    /** The constructor taking host names, a cluster name and a request-builder factory;
        the serializer stays null. */
    static method NewWithIndexBuilder(hostNames: seq<string>, clusterName: string, indexBuilder: Factory)
      returns (r: Result<ElasticSearchTransportClient<Event, Doc, Factory>>)
      ensures r.Success? <==> ParseAll(hostNames).Success? && |hostNames| > 0
      ensures r.Failure? ==>
        r.error == if ParseAll(hostNames).Failure? then ParseAll(hostNames).error else IllegalArgument
      ensures r.Success? ==>
        var c := r.value;
        fresh(c) && c.Valid() &&
        c.serverAddresses[..] == ParseAll(hostNames).value &&
        c.client == Some(Handle(0, HostsOf(c.serverAddresses[..]))) &&
        c.built == [c.client.value] && c.closedHandles == [] && c.bulkCalls == [] &&
        c.bulkRequest.None? && c.serializer.None? && c.indexBuilder == Some(indexBuilder)
    {
      var c := new ElasticSearchTransportClient<Event, Doc, Factory>();
      var connected := c.Connect(hostNames, clusterName);
      if connected.Fail? {
        return Failure(connected.error);
      }
      c.indexBuilder := Some(indexBuilder);
      r := Success(c);
    }
  }

  /** At most one handle is live, and it is the current one. */
  lemma AtMostOneLiveHandle<Event, Doc, Factory>(c: ElasticSearchTransportClient<Event, Doc, Factory>)
    requires c.Valid()
    ensures c.LiveHandles() == set h | h in HandlesIn(c.client)
    ensures |c.LiveHandles()| <= 1
  {
    if c.client.Some? {
      assert c.LiveHandles() == {c.client.value};
    } else {
      assert c.LiveHandles() == {};
    }
  }
}
