/**
 * The bridge script's pipeline (evm-wallet/src/bridge.js, `main` and
 * `getQuote`): validate the arguments and the wallet, resolve and check the
 * chains, scale the amount, ask the quote service for a route, then send
 * the one transaction the quote describes. The quote service and the
 * transaction sender are parameters; the run returns its outcome and the
 * list of external calls it made, in order.
 */
module Bridge {
  import opened Wrappers
  import opened Strings
  import opened BridgeInput
  import opened WalletStore

  const Integrator := "CyberPay"
  /** The fee 0.003 as URLSearchParams renders the number. */
  const Fee := "0.003"

  const NoWalletCliMessage := "No wallet found. Run setup.js."
  const NotBridgeableMessage := "Only BSC (56) and opBNB (204) are supported for bridging."
  /** The runtime's message when a property of `undefined` is read; only its presence is modelled. */
  const TypeErrorMessage := "TypeError"
  /** The runtime's message when the response body is not JSON; only its presence is modelled. */
  const QuoteParseErrorMessage := "invalid JSON in quote response"
  /** The runtime's message when BigInt rejects its argument; only its presence is modelled. */
  const BigIntErrorMessage := "cannot convert to a BigInt"

  // ---------------------------------------------------------------------------
  // The quote request

  /** The query string of the quote request, as ordered key/value pairs. */
  type Query = seq<(string, string)>

  const QueryKeys: seq<string> :=
    ["fromChain", "toChain", "fromToken", "toToken", "fromAmount", "fromAddress", "integrator", "fee"]

  /** getQuote's parameters: the eight fields, in this order, with the fixed integrator and fee. */
  function QuoteQuery(fromChain: nat, toChain: nat, fromToken: string, toToken: string,
                      fromAmount: string, fromAddress: string): (q: Query)
    ensures |q| == |QueryKeys| && forall i :: 0 <= i < |q| ==> q[i].0 == QueryKeys[i]
    ensures q[2].1 == fromToken && q[3].1 == toToken && q[4].1 == fromAmount && q[5].1 == fromAddress
    ensures q[6].1 == Integrator && q[7].1 == Fee
  {
    [("fromChain", NatToString(fromChain)), ("toChain", NatToString(toChain)),
     ("fromToken", fromToken), ("toToken", toToken),
     ("fromAmount", fromAmount), ("fromAddress", fromAddress),
     ("integrator", Integrator), ("fee", Fee)]
  }

  /** The chain ids and the amount can be read back from the query text. */
  lemma QuoteQueryReadsBack(fromChain: nat, toChain: nat, fromToken: string, toToken: string,
                            units: nat, fromAddress: string)
    ensures var q := QuoteQuery(fromChain, toChain, fromToken, toToken, NatToString(units), fromAddress);
      && ParseInt(q[0].1) == Id(fromChain)
      && ParseInt(q[1].1) == Id(toChain)
      && IsDigits(q[4].1) && DigitsValue(q[4].1) == units
  {
    ParseIntOfNatToString(fromChain);
    ParseIntOfNatToString(toChain);
    NatToStringRoundTrip(units);
  }

  // ---------------------------------------------------------------------------
  // The quote response

  datatype TxRequest = TxRequest(to: Option<string>, data: Option<string>, value: Option<string>, gasLimit: Option<string>)

  /**
   * The parts of a quote the script reads: whether `toolDetails` and
   * `estimate` are present (it prints fields of both) and the transaction.
   */
  datatype Quote = Quote(hasToolDetails: bool, hasEstimate: bool, transactionRequest: Option<TxRequest>)

  /** What fetch yields: a rejection, or a response whose body may or may not parse as a quote. */
  datatype HttpResponse =
    | FetchFailed(message: string)
    | Response(status: nat, statusText: string, body: string, json: Option<Quote>)

  /** Response.ok: the status is in the 2xx class. */
  predicate IsOk(status: nat): (b: bool)
    ensures b <==> status / 100 == 2
  {
    200 <= status <= 299
  }

  /** The error getQuote throws on a rejected request: a fixed prefix, and the response body last. */
  function QuoteErrorMessage(status: nat, statusText: string, body: string): (m: string)
    ensures |m| >= 17 + |body| && m[..17] == "LI.FI API Error: "
    ensures NatToString(status) <= m[17..] && m[|m| - |body|..] == body
  {
    "LI.FI API Error: " + NatToString(status) + " " + statusText + " - " + body
  }

  /** getQuote after the fetch: a non-ok status is an error carrying the status, its text and the body. */
  function QuoteResult(resp: HttpResponse): (r: Result<Quote>)
    ensures r.Success? <==> resp.Response? && IsOk(resp.status) && resp.json.Some?
    ensures r.Success? ==> r.value == resp.json.value
    ensures resp.FetchFailed? ==> r == Failure(resp.message)
    ensures resp.Response? && !IsOk(resp.status) ==>
      r == Failure(QuoteErrorMessage(resp.status, resp.statusText, resp.body))
  {
    match resp
    case FetchFailed(message) => Failure(message)
    case Response(status, statusText, body, json) =>
      if !IsOk(status) then Failure(QuoteErrorMessage(status, statusText, body))
      else if json.None? then Failure(QuoteParseErrorMessage)
      else Success(json.value)
  }

  /** The error of a rejected quote names the status code and quotes the body. */
  lemma QuoteErrorCarriesStatusAndBody(resp: HttpResponse)
    requires resp.Response? && !IsOk(resp.status)
    ensures Contains(QuoteResult(resp).error, NatToString(resp.status))
    ensures Contains(QuoteResult(resp).error, resp.body)
  {
    var e := QuoteResult(resp).error;
    assert NatToString(resp.status) <= e[17..];
    assert resp.body <= e[|e| - |resp.body|..];
  }

  // ---------------------------------------------------------------------------
  // The transaction

  /** BigInt's hexadecimal form: "0x" or "0X" and at least one hexadecimal digit. */
  predicate IsHexNumeral(s: string) { |s| > 2 && HasHexPrefix(s) && IsHexDigits(s[2..]) }

  /**
   * BigInt(x) on the text of a quote field: decimal digits, or hexadecimal
   * digits after "0x"; "" is 0. No value (undefined) and any other text
   * make BigInt throw.
   */
  function BigIntOf(v: Option<string>): (n: Option<nat>)
    ensures n.Some? <==> v.Some? && (IsDigits(v.value) || IsHexNumeral(v.value))
    ensures v.Some? && IsDigits(v.value) ==> n == Some(DigitsValue(v.value))
    ensures v.Some? && IsHexNumeral(v.value) ==> n == Some(HexValue(v.value[2..]))
  {
    match v
    case None => None
    case Some(s) =>
      if IsDigits(s) then Some(DigitsValue(s))
      else if IsHexNumeral(s) then Some(HexValue(s[2..]))
      else None
  }

  /** BigInt reads the hexadecimal quantities the quote service writes, such as "0x38" for 56. */
  lemma BigIntOfHex(p: string, h: string)
    requires p == "0x" || p == "0X"
    requires IsHexDigits(h) && h != []
    ensures BigIntOf(Some(p + h)) == Some(HexValue(h))
  {
    assert (p + h)[2..] == h;
    assert !IsDigits(p + h) by {
      assert !IsDigit((p + h)[1]);
    }
  }

  /** BigInt reads back the decimal rendering of every natural number. */
  lemma BigIntOfRendering(n: nat)
    ensures BigIntOf(Some(NatToString(n))) == Some(n)
  {
    NatToStringRoundTrip(n);
  }

  /** The transaction handed to sendTransaction. */
  datatype SendTx = SendTx(to: Option<string>, data: Option<string>, value: nat, gas: nat)

  /** `{to, data, value: BigInt(value), gas: BigInt(gasLimit)}`; value is converted first. */
  function BuildSend(t: TxRequest): (r: Result<SendTx>)
    ensures r.Success? <==> BigIntOf(t.value).Some? && BigIntOf(t.gasLimit).Some?
    ensures r.Success? ==> r.value.to == t.to && r.value.data == t.data
    ensures r.Success? ==> Some(r.value.value) == BigIntOf(t.value) && Some(r.value.gas) == BigIntOf(t.gasLimit)
  {
    match (BigIntOf(t.value), BigIntOf(t.gasLimit))
    case (Some(value), Some(gas)) => Success(SendTx(t.to, t.data, value, gas))
    case _ => Failure(BigIntErrorMessage)
  }

  // ---------------------------------------------------------------------------
  // The run

  /** An external call the run makes. */
  datatype Call = QuoteRequest(query: Query) | SendTransaction(client: WalletClient, tx: SendTx)

  /**
   * How a run ends: usage shown; process.exit with a code and a message on
   * standard error; an error nothing catches; an error caught and printed by
   * main (the process then ends normally); a transaction hash; or an amount
   * outside the model.
   */
  datatype Outcome =
    | Help
    | Exit(code: nat, message: string)
    | Crash(message: string)
    | Reported(message: string)
    | Sent(hash: string)
    | AmountNotModelled

  /** `helpFlag || args.length < 5`: fewer than five arguments, options included, also show the usage. */
  predicate ShowsHelp(args: seq<string>): (b: bool)
    ensures b <==> |args| < 5 || exists i :: 0 <= i < |args| && (args[i] == "--help" || args[i] == "-h")
    ensures !b ==> |args| >= 5 && forall i :: 0 <= i < |args| ==> args[i] != "--help" && args[i] != "-h"
  {
    HelpRequested(args) || |args| < 5
  }

  /** The amount's base-unit count as the query writes it, when the amount is inside the model. */
  function AmountText(amount: string): (t: Option<string>)
    ensures t.Some? <==> ParseUnits(amount, Decimals).Units?
    ensures t.Some? ==> t.value == NatToString(ParseUnits(amount, Decimals).value)
  {
    match ParseUnits(amount, Decimals)
    case NotModelled => None
    case Units(n) => Some(NatToString(n))
  }

  /** The resolved id of a chain argument when it is one of the bridgeable chains. */
  function BridgeableId(arg: string): (id: Option<nat>)
    ensures id.Some? <==> Bridgeable(ResolveChainId(arg))
    ensures id.Some? ==> ResolveChainId(arg) == Id(id.value) && id.value in BridgeableIds
  {
    var v := ResolveChainId(arg);
    if Bridgeable(v) then Some(v.id as nat) else None
  }

  /** 1.5 of an 18-decimal token is sent as 1500000000000000000 base units. */
  lemma AmountTextOneAndAHalf(amount: string)
    requires amount == "1.5"
    ensures AmountText(amount) == Some("1500000000000000000")
  {
    ParseUnitsExample(amount);
    AmountTextExample();
  }

  /** Each alias of the bridge's chain map, in any case, names a bridgeable chain. */
  lemma BridgeableAlias(arg: string)
    requires ToLower(arg) in ["bsc", "binance", "opbnb"]
    ensures BridgeableId(arg) == Some(if ToLower(arg) == "opbnb" then 204 else 56)
  {
  }

  /**
   * The quote query a run sends, if it sends one: every check before the
   * request passed, and the query carries the resolved ids, the token
   * arguments, the scaled amount and the stored address.
   */
  function PlannedQuery(args: seq<string>, store: Store): (q: Option<Query>)
    reads store
    ensures q.Some? ==> !ShowsHelp(args) && store.Exists() && store.GetAddress().Success?
    ensures q.Some? ==> |Positional(args)| >= 5 && |q.value| == |QueryKeys|
    ensures q.Some? ==> Bridgeable(ResolveChainId(Positional(args)[0])) && Bridgeable(ResolveChainId(Positional(args)[1]))
    ensures q.Some? ==> q.value[5].1 == store.GetAddress().value
    ensures q.Some? ==> AmountText(Positional(args)[4]).Some? && q.value[4].1 == AmountText(Positional(args)[4]).value
  {
    var pos := Positional(args);
    if ShowsHelp(args) || !store.Exists() || |pos| < 5 then None
    else
      match store.GetAddress()
      case Failure(_) => None
      case Success(address) =>
        match (BridgeableId(pos[0]), BridgeableId(pos[1]), AmountText(pos[4]))
        case (Some(fromId), Some(toId), Some(amount)) =>
          Some(QuoteQuery(fromId, toId, pos[2], pos[3], amount, address))
        case _ => None
  }

  /**
   * `sourceChainName || 'bsc'`: the first alias of the source id, else "bsc".
   * Either way it names a registry chain, the source chain itself when the
   * id is bridgeable.
   */
  function SourceName(fromId: int): (name: string)
    ensures Chains.GetChain(name).Success?
    ensures fromId == 56 || fromId == 204 ==> Chains.GetChain(name).value.chainId == fromId
    ensures SourceAlias(ChainMap, fromId).None? ==> name == "bsc"
  {
    var alias := SourceAlias(ChainMap, fromId);
    if alias.Some? then
      SourceAliasOfBridgeable(Id(fromId));
      alias.value
    else
      BscIsRegistered();
      "bsc"
  }

  lemma BscIsRegistered()
    ensures Chains.GetChain("bsc").Success?
  {
    ToLowerOfLower("bsc");
  }

  /**
   * What the try block sends, given the quote response and the wallet
   * client for the source chain: nothing unless the quote succeeds with its
   * route details, the client builds, and the transaction request is present
   * and converts.
   */
  function PlannedSend(resp: HttpResponse, client: Result<WalletClient>): Option<Call>
  {
    match QuoteResult(resp)
    case Failure(_) => None
    case Success(quote) =>
      if !quote.hasToolDetails || !quote.hasEstimate || client.Failure? || quote.transactionRequest.None? then None
      else
        match BuildSend(quote.transactionRequest.value)
        case Failure(_) => None
        case Success(tx) => Some(SendTransaction(client.value, tx))
  }

  /**
   * How main ends before the quote request, if it does: usage; exit 1
   * without a wallet; the getAddress error, which nothing catches; a
   * TypeError when a chain, token or amount argument is missing; exit 1 for
   * a chain outside the allow-list; or an amount outside the model. None
   * exactly when a quote is requested.
   */
  function EarlyOutcome(args: seq<string>, store: Store): (e: Option<Outcome>)
    reads store
    ensures e.None? <==> PlannedQuery(args, store).Some?
    ensures ShowsHelp(args) ==> e == Some(Help)
    ensures !ShowsHelp(args) && !store.Exists() ==> e == Some(Exit(1, NoWalletCliMessage))
    ensures !ShowsHelp(args) && store.Exists() && store.GetAddress().Failure? ==>
      e == Some(Crash(store.GetAddress().error))
    ensures (!ShowsHelp(args) && store.GetAddress().Success? && |Positional(args)| >= 2 &&
             !(Bridgeable(ResolveChainId(Positional(args)[0])) && Bridgeable(ResolveChainId(Positional(args)[1])))) ==>
      e == Some(Exit(1, NotBridgeableMessage))
    ensures !ShowsHelp(args) && store.GetAddress().Success? && |Positional(args)| < 2 ==>
      e == Some(Crash(TypeErrorMessage))
    ensures (!ShowsHelp(args) && store.GetAddress().Success? && 2 <= |Positional(args)| < 5 &&
             Bridgeable(ResolveChainId(Positional(args)[0])) && Bridgeable(ResolveChainId(Positional(args)[1]))) ==>
      e == Some(Crash(TypeErrorMessage))
    ensures (!ShowsHelp(args) && store.GetAddress().Success? && |Positional(args)| >= 5 &&
             Bridgeable(ResolveChainId(Positional(args)[0])) && Bridgeable(ResolveChainId(Positional(args)[1]))) ==>
      e == (if AmountText(Positional(args)[4]).None? then Some(AmountNotModelled) else None)
    ensures e.Some? ==> !e.value.Sent? && !e.value.Reported?
  {
    var pos := Positional(args);
    if ShowsHelp(args) then Some(Help)
    else if !store.Exists() then Some(Exit(1, NoWalletCliMessage))
    else if store.GetAddress().Failure? then Some(Crash(store.GetAddress().error))
    else if |pos| < 2 then Some(Crash(TypeErrorMessage))
    else if !Bridgeable(ResolveChainId(pos[0])) || !Bridgeable(ResolveChainId(pos[1])) then
      assert BridgeableId(pos[0]).None? || BridgeableId(pos[1]).None?;
      Some(Exit(1, NotBridgeableMessage))
    else if |pos| < 5 then Some(Crash(TypeErrorMessage))
    else
      assert BridgeableId(pos[0]).Some? && BridgeableId(pos[1]).Some?;
      if AmountText(pos[4]).None? then Some(AmountNotModelled) else None
  }

  /**
   * main: the pipeline with its early exits. No external call happens
   * before every check has passed; a failed quote ends the run with no
   * transaction; at most one transaction is sent, built from the quote,
   * signed with the key stored in the same record whose address the quote
   * names, on the source chain, and sent exactly when the quote and the
   * client allow it.
   * The script calls send once and reports its failure.
   */
  method Run(args: seq<string>, store: Store,
             quoteService: Query -> HttpResponse,
             send: (WalletClient, SendTx) -> Result<string>)
    returns (outcome: Outcome, trace: seq<Call>)
    ensures ShowsHelp(args) ==> outcome == Help && trace == []
    ensures !ShowsHelp(args) && !store.Exists() ==> outcome == Exit(1, NoWalletCliMessage) && trace == []
    ensures !ShowsHelp(args) && store.Exists() && store.GetAddress().Failure? ==>
      outcome == Crash(store.GetAddress().error) && trace == []
    ensures (!ShowsHelp(args) && store.GetAddress().Success? && |Positional(args)| >= 2 &&
             !(Bridgeable(ResolveChainId(Positional(args)[0])) && Bridgeable(ResolveChainId(Positional(args)[1])))) ==>
      outcome == Exit(1, NotBridgeableMessage) && trace == []
    ensures outcome.Exit? ==> trace == []
    ensures trace == [] ==> EarlyOutcome(args, store) == Some(outcome)
    ensures trace != [] ==> outcome.Sent? || outcome.Reported?
    ensures |trace| <= 2
    ensures trace == [] <==> PlannedQuery(args, store).None?
    ensures trace != [] ==> trace[0] == QuoteRequest(PlannedQuery(args, store).value)
    ensures trace != [] && QuoteResult(quoteService(trace[0].query)).Failure? ==>
      |trace| == 1 && outcome == Reported(QuoteResult(quoteService(trace[0].query)).error)
    ensures |trace| == 2 ==>
      && trace[1].SendTransaction?
      && QuoteResult(quoteService(trace[0].query)).Success?
      && var quote := QuoteResult(quoteService(trace[0].query)).value;
      && quote.transactionRequest.Some?
      && BuildSend(quote.transactionRequest.value) == Success(trace[1].tx)
    ensures |trace| == 2 ==>
      && trace[1].client.account == Account(store.file.value.record.privateKey.value)
      && Some(trace[0].query[5].1) == store.file.value.record.address
      && ResolveChainId(Positional(args)[0]) == Id(trace[1].client.chain.id)
    ensures |trace| == 2 ==>
      outcome == match send(trace[1].client, trace[1].tx)
                 case Success(hash) => Sent(hash)
                 case Failure(e) => Reported(e)
    ensures trace != [] ==>
      var sent := PlannedSend(quoteService(trace[0].query),
        store.GetWalletClient(SourceName(ResolveChainId(Positional(args)[0]).id)));
      (|trace| == 2 <==> sent.Some?) && (|trace| == 2 ==> trace[1] == sent.value)
    ensures outcome.Sent? ==> |trace| == 2
  {
    var early := EarlyOutcome(args, store);
    if early.Some? {
      return early.value, [];
    }
    var pos := Positional(args);
    var fromId := ResolveChainId(pos[0]);
    SourceAliasOfBridgeable(fromId);
    outcome, trace := QuoteAndSend(PlannedQuery(args, store).value, SourceName(fromId.id), store, quoteService, send);
  }

  /**
   * The part of main after the checks: request the quote, print the route,
   * build the wallet client for the source chain, then convert and send the
   * transaction once.
   */
  method QuoteAndSend(query: Query, sourceName: string, store: Store,
                      quoteService: Query -> HttpResponse,
                      send: (WalletClient, SendTx) -> Result<string>)
    returns (outcome: Outcome, trace: seq<Call>)
    ensures 1 <= |trace| <= 2 && trace[0] == QuoteRequest(query)
    ensures outcome.Sent? || outcome.Reported?
    ensures QuoteResult(quoteService(query)).Failure? ==>
      |trace| == 1 && outcome == Reported(QuoteResult(quoteService(query)).error)
    ensures |trace| == 2 ==>
      && trace[1].SendTransaction?
      && QuoteResult(quoteService(query)).Success?
      && var quote := QuoteResult(quoteService(query)).value;
      && quote.hasToolDetails && quote.hasEstimate && quote.transactionRequest.Some?
      && BuildSend(quote.transactionRequest.value) == Success(trace[1].tx)
      && store.GetWalletClient(sourceName) == Success(trace[1].client)
    ensures |trace| == 2 ==>
      outcome == match send(trace[1].client, trace[1].tx)
                 case Success(hash) => Sent(hash)
                 case Failure(e) => Reported(e)
    ensures |trace| == 2 <==> PlannedSend(quoteService(query), store.GetWalletClient(sourceName)).Some?
    ensures |trace| == 2 ==> trace[1] == PlannedSend(quoteService(query), store.GetWalletClient(sourceName)).value
    ensures outcome.Sent? ==> |trace| == 2
  {
    trace := [QuoteRequest(query)];
    var quote := QuoteResult(quoteService(query));
    if quote.Failure? {
      return Reported(quote.error), trace;
    }
    if !quote.value.hasToolDetails || !quote.value.hasEstimate {
      return Reported(TypeErrorMessage), trace;
    }
    var client := store.GetWalletClient(sourceName);
    if client.Failure? {
      return Reported(client.error), trace;
    }
    if quote.value.transactionRequest.None? {
      return Reported(TypeErrorMessage), trace;
    }
    var tx := BuildSend(quote.value.transactionRequest.value);
    if tx.Failure? {
      return Reported(tx.error), trace;
    }
    trace := trace + [SendTransaction(client.value, tx.value)];
    var sent := send(client.value, tx.value);
    match sent
    case Success(hash) => outcome := Sent(hash);
    case Failure(e) => outcome := Reported(e);
  }

  /** When every check passes, the planned query is built from the resolved ids, the amount and the stored address. */
  lemma PlannedQueryWhenChecksPass(args: seq<string>, store: Store, fromId: nat, toId: nat, amount: string)
    requires !ShowsHelp(args) && store.Exists() && store.GetAddress().Success?
    requires |Positional(args)| >= 5
    requires BridgeableId(Positional(args)[0]) == Some(fromId) && BridgeableId(Positional(args)[1]) == Some(toId)
    requires AmountText(Positional(args)[4]) == Some(amount)
    ensures PlannedQuery(args, store) ==
      Some(QuoteQuery(fromId, toId, Positional(args)[2], Positional(args)[3], amount, store.GetAddress().value))
  {
  }

  /**
   * Bridging 1.5 from bsc to opbnb with a stored wallet: the run asks for a
   * quote from chain 56 to chain 204 for 1500000000000000000 base units,
   * from the stored address.
   */
  lemma BscToOpbnbQuery(args: seq<string>, store: Store, fromToken: string, toToken: string, address: string)
    requires args == ["bsc", "opbnb", fromToken, toToken, "1.5"]
    requires !IsOption(fromToken) && !IsOption(toToken) && fromToken != "-h" && toToken != "-h"
    requires store.GetAddress() == Success(address)
    ensures PlannedQuery(args, store) ==
      Some(QuoteQuery(56, 204, fromToken, toToken, "1500000000000000000", address))
  {
    PlainArgs(args, fromToken, toToken);
    BridgeableBscOpbnb(args[0], args[1]);
    AmountTextOneAndAHalf(args[4]);
    PlannedQueryWhenChecksPass(args, store, 56, 204, "1500000000000000000");
  }

  /** The arguments of that run ask for no help and are all positional. */
  lemma PlainArgs(args: seq<string>, fromToken: string, toToken: string)
    requires args == ["bsc", "opbnb", fromToken, toToken, "1.5"]
    requires !IsOption(fromToken) && !IsOption(toToken) && fromToken != "-h" && toToken != "-h"
    ensures !ShowsHelp(args) && Positional(args) == args
  {
    PositionalOfPlain(args);
  }

  lemma BridgeableBscOpbnb(from: string, to: string)
    requires from == "bsc" && to == "opbnb"
    ensures BridgeableId(from) == Some(56) && BridgeableId(to) == Some(204)
  {
    ToLowerOfLower(from);
    BridgeableAlias(from);
    ToLowerOfLower(to);
    BridgeableAlias(to);
  }
}
