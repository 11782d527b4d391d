/** The HTTP plugin handed to the git client: request bodies are merged into one buffer and
    requests are routed through an HTTP or HTTPS proxy agent when one is configured and the
    no-proxy list admits the URL. The HTTP call itself is not part of this model. */
module GitPluginHttp {
  import opened Wrappers
  import opened Text
  import opened Bytes

  /** One element of an array body: a Node `Buffer`, or another `Uint8Array`. */
  datatype Chunk = Chunk(bytes: seq<byte>, isBuffer: bool)

  /** A request body: absent, a single payload that is not an array, or an array of chunks. */
  datatype Body = NoBody | Payload(bytes: seq<byte>) | Chunks(chunks: seq<Chunk>)

  /** The byte contents of each chunk, in order. */
  function ChunkBytes(chunks: seq<Chunk>): (r: seq<seq<byte>>)
    ensures |r| == |chunks|
    ensures forall k :: 0 <= k < |chunks| ==> r[k] == chunks[k].bytes
  {
    seq(|chunks|, k requires 0 <= k < |chunks| => chunks[k].bytes)
  }

  /** `mergeBuffers(data)`: a body that is not an array is returned unchanged, an array of
      one Buffer yields that Buffer, and any other array yields one buffer holding the chunks
      end to end. */
  method MergeBuffers(data: Body) returns (r: Body)
    ensures !data.Chunks? ==> r == data
    ensures data.Chunks? && |data.chunks| == 1 && data.chunks[0].isBuffer ==> r == Payload(data.chunks[0].bytes)
    ensures data.Chunks? ==> r.Payload? && r.bytes == Flatten(ChunkBytes(data.chunks))
    ensures data.Chunks? ==> |r.bytes| == TotalLength(ChunkBytes(data.chunks))
  {
    if !data.Chunks? {
      return data;
    }
    var chunks := data.chunks;
    FlattenLength(ChunkBytes(chunks));
    if |chunks| == 1 && chunks[0].isBuffer {
      assert ChunkBytes(chunks) == [chunks[0].bytes];
      assert Flatten(ChunkBytes(chunks)) == chunks[0].bytes by {
        assert ChunkBytes(chunks)[..0] == [];
      }
      return Payload(chunks[0].bytes);
    }
    // collect the chunks and add up their byte lengths
    var buffers: seq<seq<byte>> := [];
    var size := 0;
    var i := 0;
    while i < |chunks|
      invariant 0 <= i <= |chunks|
      invariant buffers == ChunkBytes(chunks)[..i]
      invariant size == TotalLength(buffers)
    {
      assert ChunkBytes(chunks)[..i + 1] == buffers + [chunks[i].bytes];
      buffers := buffers + [chunks[i].bytes];
      size := size + |chunks[i].bytes|;
      i := i + 1;
    }
    assert buffers == ChunkBytes(chunks);
    // copy each chunk into a zero-filled array of the total size, at a running offset
    var merged: seq<byte> := seq(size, _ => 0);
    var offset := 0;
    var j := 0;
    while j < |buffers|
      invariant 0 <= j <= |buffers|
      invariant |merged| == size
      invariant offset == TotalLength(buffers[..j]) <= size
      invariant merged[..offset] == Flatten(buffers[..j])
    {
      assert buffers[..j + 1][..j] == buffers[..j];
      TotalLengthPrefix(buffers, j + 1);
      var next := SetAt(merged, buffers[j], offset);
      assert next[..offset + |buffers[j]|] == merged[..offset] + buffers[j];
      merged := next;
      offset := offset + |buffers[j]|;
      j := j + 1;
    }
    assert buffers[..j] == buffers;
    return Payload(merged);
  }

  /** The array short cut is only a short cut: a lone Buffer merged the general way gives the
      same bytes. */
  lemma LoneBufferShortcut(c: Chunk)
    ensures Flatten(ChunkBytes([c])) == c.bytes
  {
    assert ChunkBytes([c]) == [c.bytes];
    assert ChunkBytes([c])[..0] == [];
  }

  /** The proxy configuration of the plugin. */
  datatype ProxySettings = ProxySettings(httpProxy: Option<string>, httpsProxy: Option<string>, noProxy: Option<string>)

  /** The agent class from hpagent used to reach the proxy. */
  datatype AgentKind = HttpProxyAgent | HttpsProxyAgent

  /** A proxy agent; parsing the proxy URL into its parts is not part of this model. */
  datatype Agent = Agent(kind: AgentKind, proxyUrl: string)

  /** `shouldProxy(url, { no_proxy })` from should-proxy, not part of this model. */
  type NoProxyCheck = (string, Option<string>) -> bool

  /** What the git client asks for. */
  datatype Request = Request(url: string, verb: string, headers: map<string, string>, body: Body)

  /** The options handed to `simple-get`. */
  datatype Outgoing = Outgoing(url: string, verb: string, agent: Option<Agent>, headers: map<string, string>, body: Body)

  /** The URL uses the https scheme. */
  predicate IsHttps(url: string) {
    StartsWith(url, "https:")
  }

  /** The agent class and proxy URL for a request URL: the HTTPS proxy for https URLs, the
      HTTP proxy for any other URL. */
  function SelectProxy(url: string, settings: ProxySettings): (AgentKind, Option<string>)
  {
    if IsHttps(url) then (HttpsProxyAgent, settings.httpsProxy) else (HttpProxyAgent, settings.httpProxy)
  }

  /** The agent for a request URL, made only when the selected proxy is set and the no-proxy
      check admits the URL. */
  function AgentFor(url: string, settings: ProxySettings, shouldProxy: NoProxyCheck): Option<Agent>
  {
    var (kind, proxyUrl) := SelectProxy(url, settings);
    if Truthy(proxyUrl) && shouldProxy(url, settings.noProxy) then Some(Agent(kind, proxyUrl.value)) else None
  }

  /** `request({ url, method, headers, body })` up to the call of `simple-get`: with no proxy
      configured at all the request never carries an agent; otherwise the agent follows the
      URL's scheme, the configured proxies and the no-proxy check. */
  method PrepareRequest(settings: ProxySettings, req: Request, shouldProxy: NoProxyCheck) returns (out: Outgoing)
    ensures out.url == req.url && out.verb == req.verb && out.headers == req.headers
    ensures !req.body.Chunks? ==> out.body == req.body
    ensures req.body.Chunks? ==> out.body == Payload(Flatten(ChunkBytes(req.body.chunks)))
    ensures out.agent.Some? <==>
      (if IsHttps(req.url) then Truthy(settings.httpsProxy) else Truthy(settings.httpProxy))
      && shouldProxy(req.url, settings.noProxy)
    ensures out.agent.Some? ==>
      out.agent.value.kind == (if IsHttps(req.url) then HttpsProxyAgent else HttpProxyAgent) &&
      Some(out.agent.value.proxyUrl) == (if IsHttps(req.url) then settings.httpsProxy else settings.httpProxy)
  {
    var body := MergeBuffers(req.body);
    var agent := None;
    if Truthy(settings.httpsProxy) || Truthy(settings.httpProxy) {
      agent := AgentFor(req.url, settings, shouldProxy);
    }
    out := Outgoing(req.url, req.verb, agent, req.headers, body);
  }

  /** Without any proxy configured, no URL is ever sent through an agent. */
  lemma NoProxyConfiguredGoesDirect(settings: ProxySettings, url: string, shouldProxy: NoProxyCheck)
    requires !Truthy(settings.httpProxy) && !Truthy(settings.httpsProxy)
    ensures AgentFor(url, settings, shouldProxy).None?
  {
  }

  /** An https URL with only the HTTP proxy configured goes direct, and so does a plain http URL
      with only the HTTPS proxy configured. */
  lemma SchemeMismatchGoesDirect(settings: ProxySettings, url: string, shouldProxy: NoProxyCheck)
    ensures IsHttps(url) && !Truthy(settings.httpsProxy) ==> AgentFor(url, settings, shouldProxy).None?
    ensures !IsHttps(url) && !Truthy(settings.httpProxy) ==> AgentFor(url, settings, shouldProxy).None?
  {
  }

  /** The response as `simple-get` delivers it; the stream of its body is kept as its bytes. */
  datatype Response = Response(url: string, verb: string, statusCode: int, statusMessage: string,
                               headers: map<string, string>, stream: seq<byte>)

  /** The response shape the git client expects. */
  datatype Distilled = Distilled(url: string, verb: string, statusCode: int, statusMessage: string,
                                 headers: map<string, string>, body: Response)

  /** `distillResponse(res)`: the status line fields and headers are copied, and the body is the
      response itself, so nothing of the response is lost. */
  function DistillResponse(res: Response): (d: Distilled)
    ensures d.url == res.url && d.verb == res.verb && d.headers == res.headers
    ensures d.statusCode == res.statusCode && d.statusMessage == res.statusMessage
    ensures d.body == res
  {
    Distilled(res.url, res.verb, res.statusCode, res.statusMessage, res.headers, res)
  }
}
