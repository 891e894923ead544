/** plugins/sentinel/internal/client/client.go: choosing the AI provider clients and
    falling back from one to the next. The providers' own calls are not part of this
    model; what each client returns is the parameter `call`. */
module Client {
  import opened Wrappers
  import opened Strings

  /** The client kinds newSingleClient can build. */
  datatype ClientKind = Anthropic | OpenAI | Ollama

  datatype NamedClient = NamedClient(name: string, kind: ClientKind)

  /** interfaces.AIClient: one provider's client, or a FallbackClient over several. */
  datatype AIClient = Single(kind: ClientKind) | Fallback(clients: seq<NamedClient>)

  /** types.EvalResult. */
  datatype EvalResult = EvalResult(decision: string, reason: string, warning: string, violations: seq<string>)

  /** Config.GetProviders: `Providers` when set, else the single `Provider`. */
  function GetProviders(providers: seq<string>, provider: string): (r: seq<string>)
    ensures |r| > 0
    ensures |providers| > 0 ==> r == providers
    ensures |providers| == 0 ==> r == [provider]
  {
    if |providers| > 0 then providers else [provider]
  }

  predicate KnownProvider(p: string)
  {
    p == "anthropic" || p == "openai" || p == "ollama"
  }

  /** newSingleClient. */
  function NewSingleClient(p: string): (r: Result<ClientKind>)
    ensures r.Success? <==> KnownProvider(p)
    ensures r.Failure? ==> r.error == "unknown provider: " + p
  {
    match p
      case "anthropic" => Success(Anthropic)
      case "openai" => Success(OpenAI)
      case "ollama" => Success(Ollama)
      case _ => Failure("unknown provider: " + p)
  }

  /** Index of the first unknown provider, or the number of providers. */
  function FirstUnknown(ps: seq<string>): (k: nat)
    ensures k <= |ps|
    ensures forall j :: 0 <= j < k ==> KnownProvider(ps[j])
    ensures k < |ps| ==> !KnownProvider(ps[k])
  {
    if |ps| == 0 || !KnownProvider(ps[0]) then 0
    else
      var k := FirstUnknown(ps[1..]);
      assert forall j :: 1 <= j < k + 1 ==> ps[j] == ps[1..][j - 1];
      1 + k
  }

  /** The clients built for known providers, in order. */
  function Clients(ps: seq<string>): (cs: seq<NamedClient>)
    requires forall j :: 0 <= j < |ps| ==> KnownProvider(ps[j])
    ensures |cs| == |ps|
    ensures forall j :: 0 <= j < |ps| ==> cs[j].name == ps[j] && Success(cs[j].kind) == NewSingleClient(ps[j])
  {
    if |ps| == 0 then []
    else [NamedClient(ps[0], NewSingleClient(ps[0]).value)] + Clients(ps[1..])
  }

  /** What newFallbackClient returns: every client, or the error of the first provider
      that cannot be built. */
  function FallbackClients(ps: seq<string>): (r: Result<seq<NamedClient>>)
    ensures r.Success? <==> forall j :: 0 <= j < |ps| ==> KnownProvider(ps[j])
    ensures r.Success? ==> r.value == Clients(ps)
    ensures r.Failure? ==> exists j :: (0 <= j < |ps| && !KnownProvider(ps[j])
                                   && (forall i :: 0 <= i < j ==> KnownProvider(ps[i]))
                                   && r.error == "cannot create " + ps[j] + " client: unknown provider: " + ps[j])
  {
    var k := FirstUnknown(ps);
    if k == |ps| then Success(Clients(ps))
    else
      CreateError(ps[k]);
      Failure("cannot create " + ps[k] + " client: " + NewSingleClient(ps[k]).error)
  }

  lemma CreateError(p: string)
    ensures "cannot create " + p + " client: " + ("unknown provider: " + p)
      == "cannot create " + p + " client: unknown provider: " + p
  {
  }

  /** newFallbackClient: the clients appended one by one, stopping at the first
      provider that cannot be built. */
  method NewFallbackClient(ps: seq<string>) returns (r: Result<seq<NamedClient>>)
    ensures r == FallbackClients(ps)
  {
    var clients: seq<NamedClient> := [];
    var i := 0;
    while i < |ps|
      invariant 0 <= i <= |ps|
      invariant forall j :: 0 <= j < i ==> KnownProvider(ps[j])
      invariant clients == Clients(ps[..i])
    {
      var c := NewSingleClient(ps[i]);
      if c.Failure? {
        assert FirstUnknown(ps) == i;
        return Failure("cannot create " + ps[i] + " client: " + c.error);
      }
      ClientsAppend(ps[..i], ps[i]);
      assert ps[..i + 1] == ps[..i] + [ps[i]];
      clients := clients + [NamedClient(ps[i], c.value)];
      i := i + 1;
    }
    assert ps[..i] == ps;
    return Success(clients);
  }

  lemma {:induction false} ClientsAppend(ps: seq<string>, p: string)
    requires forall j :: 0 <= j < |ps| ==> KnownProvider(ps[j])
    requires KnownProvider(p)
    ensures Clients(ps + [p]) == Clients(ps) + [NamedClient(p, NewSingleClient(p).value)]
    decreases |ps|
  {
    if |ps| > 0 {
      assert (ps + [p])[1..] == ps[1..] + [p];
      ClientsAppend(ps[1..], p);
    }
  }

  /** client.New: one provider gives a single client, more give a fallback client. */
  function New(providers: seq<string>, provider: string): (r: Result<AIClient>)
    ensures var ps := GetProviders(providers, provider);
      |ps| == 1 ==> (r.Success? <==> KnownProvider(ps[0])) && (r.Success? ==> r.value.Single?)
    ensures var ps := GetProviders(providers, provider);
      |ps| != 1 ==> (r.Success? <==> forall j :: 0 <= j < |ps| ==> KnownProvider(ps[j]))
                    && (r.Success? ==> r.value == Fallback(Clients(ps)))
  {
    var ps := GetProviders(providers, provider);
    if |ps| == 1 then
      match NewSingleClient(ps[0])
        case Success(k) => Success(Single(k))
        case Failure(e) => Failure(e)
    else
      match FallbackClients(ps)
        case Success(cs) => Success(Fallback(cs))
        case Failure(e) => Failure(e)
  }

  /** One unknown name among several providers fails the whole construction. */
  lemma OneBadNameFails(providers: seq<string>, provider: string, j: int)
    requires |providers| > 1 && 0 <= j < |providers| && !KnownProvider(providers[j])
    ensures New(providers, provider).Failure?
  {
  }

  // ---------------------------------------------------------------------------
  // FallbackClient.Evaluate

  /** Index of the first client whose call succeeds, or the number of clients. */
  function FirstSuccess(cs: seq<NamedClient>, call: NamedClient -> Result<EvalResult>): (k: nat)
    ensures k <= |cs|
    ensures forall j :: 0 <= j < k ==> call(cs[j]).Failure?
    ensures k < |cs| ==> call(cs[k]).Success?
  {
    if |cs| == 0 || call(cs[0]).Success? then 0
    else
      var k := FirstSuccess(cs[1..], call);
      assert forall j :: 1 <= j < k + 1 ==> cs[j] == cs[1..][j - 1];
      1 + k
  }

  /** `name: error` for each client, in order; meaningful when every call failed. */
  function Errors(cs: seq<NamedClient>, call: NamedClient -> Result<EvalResult>): (es: seq<string>)
    ensures |es| == |cs|
    ensures forall j :: 0 <= j < |cs| && call(cs[j]).Failure? ==> es[j] == cs[j].name + ": " + call(cs[j]).error
  {
    if |cs| == 0 then []
    else
      var es := Errors(cs[..|cs| - 1], call);
      var c := cs[|cs| - 1];
      assert forall j :: 0 <= j < |cs| - 1 ==> cs[..|cs| - 1][j] == cs[j];
      es + [c.name + ": " + (if call(c).Failure? then call(c).error else "")]
  }

  /** What FallbackClient.Evaluate returns. */
  function FallbackResult(cs: seq<NamedClient>, call: NamedClient -> Result<EvalResult>): (r: Result<EvalResult>)
    ensures r.Success? <==> exists j :: 0 <= j < |cs| && call(cs[j]).Success?
    ensures r.Success? ==> exists j :: (0 <= j < |cs| && r == call(cs[j])
                                   && forall i :: 0 <= i < j ==> call(cs[i]).Failure?)
    ensures r.Failure? ==> r.error == "all providers failed: " + Join(Errors(cs, call), "; ")
  {
    var k := FirstSuccess(cs, call);
    if k < |cs| then call(cs[k])
    else Failure("all providers failed: " + Join(Errors(cs, call), "; "))
  }

  /** FallbackClient.Evaluate: the clients in order, returning the first success and
      collecting the errors of the others. */
  method FallbackEvaluate(cs: seq<NamedClient>, call: NamedClient -> Result<EvalResult>) returns (r: Result<EvalResult>)
    ensures r == FallbackResult(cs, call)
  {
    var errs: seq<string> := [];
    var i := 0;
    while i < |cs|
      invariant 0 <= i <= |cs|
      invariant forall j :: 0 <= j < i ==> call(cs[j]).Failure?
      invariant errs == Errors(cs[..i], call)
    {
      var result := call(cs[i]);
      if result.Success? {
        assert FirstSuccess(cs, call) == i;
        return result;
      }
      assert cs[..i + 1][..i] == cs[..i];
      errs := errs + [cs[i].name + ": " + result.error];
      i := i + 1;
    }
    assert cs[..i] == cs;
    return Failure("all providers failed: " + Join(errs, "; "));
  }

  /** Clients after the first one that succeeds are never consulted. */
  lemma LaterClientsIgnored(cs: seq<NamedClient>, more: seq<NamedClient>, call: NamedClient -> Result<EvalResult>)
    requires exists j :: 0 <= j < |cs| && call(cs[j]).Success?
    ensures FallbackResult(cs + more, call) == FallbackResult(cs, call)
  {
    var k := FirstSuccess(cs, call);
    assert forall j :: 0 <= j < |cs| ==> (cs + more)[j] == cs[j];
    assert FirstSuccess(cs + more, call) == k;
  }
}
