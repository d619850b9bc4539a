/** `get_price` and `get_balance`: which service a coin selector is sent to,
    the coin-id table, the Ethereum address shape check, the fallback over
    three Ethereum nodes and the choice of the TRX entry in a Tron account.

    Every HTTP request and JSON decode is foreign and appears as an input: what
    the call raised or returned. Balances are returned in the smallest unit the
    service reports (satoshi, wei, sun); the source's float division by 1e8,
    1e18 or 1e6 is kept only as the exact quotient `Coins`. */
module Balances {
  import opened Wrappers
  import Text
  import HexInt

  /** The labels the coin menu offers, in menu order. */
  const Menu: seq<string> :=
    ["Bitcoin (BTC)", "Ethereum (ETH)", "Tron (TRX)", "Litecoin (LTC)", "Dogecoin (DOGE)"]

  /** `get_price`'s table from menu label to the price service's coin id. */
  const CoinIds: map<string, string> :=
    map["Bitcoin (BTC)" := "bitcoin", "Ethereum (ETH)" := "ethereum", "Tron (TRX)" := "tron",
        "Litecoin (LTC)" := "litecoin", "Dogecoin (DOGE)" := "dogecoin"]

  /** `ids.get(coin_str)`. */
  function CoinId(coin: string): Option<string> {
    if coin in CoinIds then Some(CoinIds[coin]) else None
  }

  /** The price service's decoded JSON: coin id to currency to price, a JSON
      null price being `None`. */
  type Quote = map<string, map<string, Option<real>>>

  /** `get_price`: the `usd` field under the selector's coin id, or `None` when
      the request raises or a key is missing. For a label outside the table the
      request asks for the id `None`, which no key of a JSON object equals. */
  function Price(coin: string, reply: Raw<Quote>): (r: Option<real>)
    ensures coin !in CoinIds ==> r == None
    ensures reply.Raised? ==> r == None
    ensures r.Some? ==> reply.Returned? && CoinIds[coin] in reply.value
                        && "usd" in reply.value[CoinIds[coin]]
                        && reply.value[CoinIds[coin]]["usd"] == r
    ensures (coin in CoinIds && reply.Returned? && CoinIds[coin] in reply.value
             && "usd" in reply.value[CoinIds[coin]])
            ==> r == reply.value[CoinIds[coin]]["usd"]
  {
    match CoinId(coin)
    case None => None
    case Some(id) =>
      match reply
      case Raised => None
      case Returned(quotes) =>
        if id in quotes && "usd" in quotes[id] then quotes[id]["usd"] else None
  }

  /** The service `get_balance` queries for a selector. */
  datatype Chain = BlockchainInfo | EthereumRpc | Tronscan | Blockcypher(code: string) | NoChain

  /** `get_balance`'s dispatch: substring tests for Bitcoin, Ethereum, Tron, then
      Litecoin or Dogecoin, the first that holds deciding. */
  function Route(coin: string): (r: Chain) {
    if Text.Contains(coin, "Bitcoin") then BlockchainInfo
    else if Text.Contains(coin, "Ethereum") then EthereumRpc
    else if Text.Contains(coin, "Tron") then Tronscan
    else if Text.Contains(coin, "Litecoin") || Text.Contains(coin, "Dogecoin") then
      Blockcypher(if Text.Contains(coin, "Litecoin") then "ltc" else "doge")
    else NoChain
  }

  /** Each menu label goes to its own service and has a coin id, both naming
      the same coin. */
  lemma BitcoinLabel()
    ensures Route(Menu[0]) == BlockchainInfo && CoinId(Menu[0]) == Some("bitcoin")
  {
    Leads(Menu[0], "Bitcoin");
  }

  lemma EthereumLabel()
    ensures Route(Menu[1]) == EthereumRpc && CoinId(Menu[1]) == Some("ethereum")
  {
    EthereumRoute(Menu[1]);
  }

  lemma TronLabel()
    ensures Route(Menu[2]) == Tronscan && CoinId(Menu[2]) == Some("tron")
  {
    TronRoute(Menu[2]);
  }

  lemma LitecoinLabel()
    ensures Route(Menu[3]) == Blockcypher("ltc") && CoinId(Menu[3]) == Some("litecoin")
  {
    LitecoinRoute(Menu[3]);
  }

  lemma DogecoinLabel()
    ensures Route(Menu[4]) == Blockcypher("doge") && CoinId(Menu[4]) == Some("dogecoin")
  {
    DogecoinRoute(Menu[4]);
  }

  /** A label that starts with `Ethereum` and has no `B` (so no `Bitcoin`)
      goes to the Ethereum nodes. */
  lemma EthereumRoute(s: string)
    requires |s| >= 8 && s[..8] == "Ethereum" && 'B' !in s
    ensures Route(s) == EthereumRpc
  {
    Lacks(s, "Bitcoin", 0);
    Leads(s, "Ethereum");
  }

  /** A label that starts with `Tron` and has neither `B` nor `h` goes to
      Tronscan. */
  lemma TronRoute(s: string)
    requires |s| >= 4 && s[..4] == "Tron" && 'B' !in s && 'h' !in s
    ensures Route(s) == Tronscan
  {
    Lacks(s, "Bitcoin", 0);
    Lacks(s, "Ethereum", 2);
    Leads(s, "Tron");
  }

  /** A label that starts with `Litecoin` and has no `B`, `h` or `r` goes to
      Blockcypher's `ltc` chain. */
  lemma LitecoinRoute(s: string)
    requires |s| >= 8 && s[..8] == "Litecoin" && 'B' !in s && 'h' !in s && 'r' !in s
    ensures Route(s) == Blockcypher("ltc")
  {
    Lacks(s, "Bitcoin", 0);
    Lacks(s, "Ethereum", 2);
    Lacks(s, "Tron", 1);
    Leads(s, "Litecoin");
  }

  /** A label that starts with `Dogecoin` and has no `B`, `h`, `r` or `L` goes
      to Blockcypher's `doge` chain. */
  lemma DogecoinRoute(s: string)
    requires |s| >= 8 && s[..8] == "Dogecoin" && 'B' !in s && 'h' !in s && 'r' !in s && 'L' !in s
    ensures Route(s) == Blockcypher("doge")
  {
    Lacks(s, "Bitcoin", 0);
    Lacks(s, "Ethereum", 2);
    Lacks(s, "Tron", 1);
    Lacks(s, "Litecoin", 0);
    Leads(s, "Dogecoin");
  }

  /** A label that starts with `part` contains it. */
  lemma Leads(s: string, part: string)
    requires |part| <= |s| && s[..|part|] == part
    ensures Text.Contains(s, part)
  {
  }

  /** `part` does not occur in `s` when one of its characters is nowhere in `s`. */
  lemma {:induction false} Lacks(s: string, part: string, k: nat)
    requires k < |part| && part[k] !in s
    ensures !Text.Contains(s, part)
    decreases |s|
  {
    if |part| <= |s| {
      assert s[..|part|][k] == s[k];
      assert forall c :: c in s[1..] ==> c in s;
      Lacks(s[1..], part, k);
    }
  }

  /** The tests are ordered: a label naming several coins goes to the first
      in the order Bitcoin, Ethereum, Tron, Litecoin, Dogecoin, and a label
      naming none of them has no service. */
  lemma RouteOrder(coin: string)
    ensures Text.Contains(coin, "Bitcoin") ==> Route(coin) == BlockchainInfo
    ensures !Text.Contains(coin, "Bitcoin") && Text.Contains(coin, "Ethereum") ==> Route(coin) == EthereumRpc
    ensures !Text.Contains(coin, "Bitcoin") && !Text.Contains(coin, "Ethereum") && Text.Contains(coin, "Tron")
            ==> Route(coin) == Tronscan
    ensures !Text.Contains(coin, "Bitcoin") && !Text.Contains(coin, "Ethereum") && !Text.Contains(coin, "Tron")
            && (Text.Contains(coin, "Litecoin") || Text.Contains(coin, "Dogecoin"))
            ==> Route(coin) == Blockcypher(if Text.Contains(coin, "Litecoin") then "ltc" else "doge")
    ensures Route(coin).Blockcypher? ==> Route(coin).code in {"ltc", "doge"}
    ensures Route(coin).Blockcypher? && Text.Contains(coin, "Litecoin") ==> Route(coin).code == "ltc"
    ensures Route(coin) == NoChain <==>
            !Text.Contains(coin, "Bitcoin") && !Text.Contains(coin, "Ethereum") && !Text.Contains(coin, "Tron")
            && !Text.Contains(coin, "Litecoin") && !Text.Contains(coin, "Dogecoin")
  {
  }

  /** The smallest unit each service reports a balance in. Blockcypher's
      Litecoin and Dogecoin balances use the same 10^-8 unit as Bitcoin. */
  datatype Denomination = Satoshi | Wei | Sun

  /** The divisor the source applies to turn the unit into whole coins. */
  function Divisor(d: Denomination): (n: nat)
    ensures n > 0
  {
    match d
    case Satoshi => 100000000
    case Wei => 1000000000000000000
    case Sun => 1000000
  }

  /** What `get_balance` returns when it does not return None: the `-1`
      sentinel for a malformed Ethereum address, or a reported amount. */
  datatype Balance = InvalidAddress | Native(unit: Denomination, amount: real)

  /** The number the source computes: -1 for the sentinel, the amount over its
      divisor otherwise (exact here, a float there). */
  function Coins(b: Balance): real {
    match b
    case InvalidAddress => -1.0
    case Native(u, a) => a / (Divisor(u) as real)
  }

  /** The Ethereum nodes, tried in this order. */
  const EthNodes: seq<string> :=
    ["https://eth.llamarpc.com", "https://rpc.ankr.com/eth", "https://cloudflare-eth.com"]

  /** The shape check that precedes any network use: the address starts with
      `0x` and has exactly 42 characters. Nothing checks that the rest is hex. */
  predicate EthAddressShape(address: string) {
    |address| >= 2 && address[..2] == "0x" && |address| == 42
  }

  /** A JSON value as far as `int(value, 16)` cares: a string, or anything else
      (which makes it raise TypeError). */
  datatype JsonValue = JString(text: string) | JOther

  /** One node's answer: the POST or the JSON decode raised, or the decoded
      body's `result` field (`None` when the body has no such key). */
  type RpcReply = Raw<Option<JsonValue>>

  /** The wei amount a node's answer yields, or `None` when it is skipped:
      the request raised, there is no `result`, or `int(result, 16)` raises. */
  function NodeWei(reply: RpcReply): Option<int> {
    match reply
    case Returned(Some(JString(text))) => HexInt.ParseHexInt(text)
    case _ => None
  }

  /** What each node's answer yields, as one function of the node. */
  function Yields(post: string -> RpcReply): string -> Option<int> {
    node => NodeWei(post(node))
  }

  /** Reference definition of the node fallback: the first node in `nodes`
      whose answer yields an amount decides. */
  function FirstAnswer(nodes: seq<string>, answer: string -> Option<int>): Option<int> {
    if nodes == [] then None
    else match answer(nodes[0])
      case Some(wei) => Some(wei)
      case None => FirstAnswer(nodes[1..], answer)
  }

  /** Node `k` is the first whose answer yields `wei`. */
  ghost predicate AnswersFirst(nodes: seq<string>, answer: string -> Option<int>, k: int, wei: int) {
    0 <= k < |nodes| && answer(nodes[k]) == Some(wei)
    && forall j :: 0 <= j < k ==> answer(nodes[j]).None?
  }

  /** The fallback yields `wei` exactly when some node answers `wei` and every
      node before it is skipped; it yields None exactly when every node is. */
  lemma {:induction false} FirstAnswerSpec(nodes: seq<string>, answer: string -> Option<int>, wei: int)
    ensures FirstAnswer(nodes, answer) == Some(wei) <==> exists k :: AnswersFirst(nodes, answer, k, wei)
    ensures FirstAnswer(nodes, answer) == None <==>
            forall k :: 0 <= k < |nodes| ==> answer(nodes[k]).None?
  {
    if nodes != [] {
      FirstAnswerSpec(nodes[1..], answer, wei);
      if answer(nodes[0]).None? {
        if k :| AnswersFirst(nodes[1..], answer, k, wei) {
          assert AnswersFirst(nodes, answer, k + 1, wei);
        }
        if k :| AnswersFirst(nodes, answer, k, wei) {
          assert k != 0;
          assert AnswersFirst(nodes[1..], answer, k - 1, wei);
        }
        if forall k :: 0 <= k < |nodes| - 1 ==> answer(nodes[1..][k]).None? {
          forall k | 0 <= k < |nodes| ensures answer(nodes[k]).None? {
            if k > 0 { assert nodes[k] == nodes[1..][k - 1]; }
          }
        }
      } else if FirstAnswer(nodes, answer) == Some(wei) {
        assert AnswersFirst(nodes, answer, 0, wei);
      }
    }
  }

  /** The Ethereum branch of `get_balance`, as a value. */
  function EthereumSpec(address: string, post: string -> RpcReply): Option<Balance> {
    if !EthAddressShape(address) then Some(InvalidAddress)
    else match FirstAnswer(EthNodes, Yields(post))
      case None => None
      case Some(wei) => Some(Native(Wei, wei as real))
  }

  /** A node is skipped exactly when its request or decode raised, its body
      has no `result`, the result is not a string, or the string is outside
      the grammar `int(…, 16)` accepts. */
  lemma NodeSkips(reply: RpcReply)
    ensures NodeWei(reply).None? <==>
            !(reply.Returned? && reply.value.Some? && reply.value.value.JString?)
            || !HexInt.Grouped(HexInt.DropRadixPrefix(HexInt.Unsigned(
                  Text.Strip(reply.value.value.text, Text.IsIntSpace))))
  {
    if reply.Returned? && reply.value.Some? && reply.value.value.JString? {
      HexInt.ParseHexIntSpec(reply.value.value.text);
    }
  }

  /** A node that answers with a quantity `0x…` in the node's spelling yields
      the number it spells. */
  lemma NodeQuantity(n: nat)
    ensures NodeWei(Returned(Some(JString("0x" + HexInt.ToHex(n))))) == Some(n)
  {
    HexInt.HexRoundTrip(n);
  }

  /** The Ethereum branch of `get_balance`: the shape check, then the nodes in
      order until one answers. `contacted` lists the nodes posted to: none for
      a malformed address, and otherwise as `QueryNodes` describes. */
  method EthereumBalance(address: string, post: string -> RpcReply)
    returns (b: Option<Balance>, contacted: seq<string>)
    ensures b == EthereumSpec(address, post)
    ensures !EthAddressShape(address) ==> contacted == []
    ensures |contacted| <= |EthNodes| && contacted == EthNodes[..|contacted|]
    ensures forall i :: 0 <= i < |contacted| - 1 ==> Yields(post)(contacted[i]).None?
    ensures b.Some? && b.value.Native? ==>
              contacted != [] && Yields(post)(contacted[|contacted| - 1]).Some?
              && b.value == Native(Wei, Yields(post)(contacted[|contacted| - 1]).value as real)
    ensures EthAddressShape(address) && b.None? ==> contacted == EthNodes
  {
    if !EthAddressShape(address) {
      return Some(InvalidAddress), [];
    }
    var wei;
    wei, contacted := QueryNodes(Yields(post));
    match wei {
      case None => b := None;
      case Some(w) => b := Some(Native(Wei, w as real));
    }
  }

  /** The loop over the nodes: each is posted to in turn, and the first whose
      answer yields an amount ends it. `contacted` lists the nodes posted to:
      a prefix of the list, every one but the last skipped, the last the one
      that answered, and all of them when none answers. */
  method QueryNodes(answer: string -> Option<int>) returns (wei: Option<int>, contacted: seq<string>)
    ensures wei == FirstAnswer(EthNodes, answer)
    ensures |contacted| <= |EthNodes| && contacted == EthNodes[..|contacted|]
    ensures forall i :: 0 <= i < |contacted| - 1 ==> answer(contacted[i]).None?
    ensures wei.Some? ==> contacted != [] && answer(contacted[|contacted| - 1]) == wei
    ensures wei.None? ==> contacted == EthNodes
  {
    contacted := [];
    var i := 0;
    while i < |EthNodes|
      invariant 0 <= i <= |EthNodes|
      invariant contacted == EthNodes[..i]
      invariant forall j :: 0 <= j < i ==> answer(EthNodes[j]).None?
      invariant FirstAnswer(EthNodes[i..], answer) == FirstAnswer(EthNodes, answer)
    {
      var node := EthNodes[i];
      contacted := contacted + [node];
      match answer(node) {
        case Some(w) =>
          return Some(w), contacted;
        case None =>
      }
      assert EthNodes[i..][1..] == EthNodes[i + 1..];
      i := i + 1;
    }
    wei := None;
  }

  /** One entry of a Tron account's `balances` list: its `tokenName` (`None`
      when the key is missing) and `float(entry['balance'])`, which raises when
      the key is missing or the value is not a number. */
  datatype TronToken = TronToken(tokenName: Option<string>, balance: Raw<real>)

  /** The decoded Tron account: its `balances` list and its top-level
      `balance` value (`float(...)` of it), each `None` when the key is missing. */
  datatype TronAccount = TronAccount(balances: Option<seq<TronToken>>, balance: Option<Raw<real>>)

  /** A Tron amount in sun, or None when converting it raised. */
  function SunOf(x: Raw<real>): Option<Balance> {
    match x
    case Raised => None
    case Returned(v) => Some(Native(Sun, v))
  }

  /** Reference definition of the scan over `balances`: the first entry named
      `trx` decides; an entry without a name raises first; no match gives 0. */
  function TronPick(tokens: seq<TronToken>): (r: Option<Balance>)
    ensures r.Some? ==> r.value.Native? && r.value.unit == Sun
  {
    if tokens == [] then Some(Native(Sun, 0.0))
    else match tokens[0].tokenName
      case None => None
      case Some(name) => if name == "trx" then SunOf(tokens[0].balance) else TronPick(tokens[1..])
  }

  /** An entry the scan passes over: named, but not `trx`. */
  predicate OtherToken(t: TronToken) {
    t.tokenName.Some? && t.tokenName.value != "trx"
  }

  /** The first entry named `trx` decides the amount when every earlier one is
      another token. */
  lemma {:induction false} TronPickFirstTrx(tokens: seq<TronToken>, k: nat)
    requires k < |tokens| && tokens[k].tokenName == Some("trx")
    requires forall j :: 0 <= j < k ==> OtherToken(tokens[j])
    ensures TronPick(tokens) == SunOf(tokens[k].balance)
  {
    if k > 0 {
      assert OtherToken(tokens[0]);
      assert forall j :: 0 <= j < k - 1 ==> OtherToken(tokens[1..][j]) by {
        forall j | 0 <= j < k - 1 ensures OtherToken(tokens[1..][j]) {
          assert tokens[1..][j] == tokens[j + 1];
        }
      }
      TronPickFirstTrx(tokens[1..], k - 1);
    }
  }

  /** An entry without a name, reached before any `trx` entry, makes the call
      raise, so the balance is None. */
  lemma {:induction false} TronPickUnnamed(tokens: seq<TronToken>, k: nat)
    requires k < |tokens| && tokens[k].tokenName.None?
    requires forall j :: 0 <= j < k ==> OtherToken(tokens[j])
    ensures TronPick(tokens) == None
  {
    if k > 0 {
      assert OtherToken(tokens[0]);
      assert forall j :: 0 <= j < k - 1 ==> OtherToken(tokens[1..][j]) by {
        forall j | 0 <= j < k - 1 ensures OtherToken(tokens[1..][j]) {
          assert tokens[1..][j] == tokens[j + 1];
        }
      }
      TronPickUnnamed(tokens[1..], k - 1);
    }
  }

  /** With no `trx` entry the balance is 0, not None. */
  lemma {:induction false} TronPickNoTrx(tokens: seq<TronToken>)
    requires forall j :: 0 <= j < |tokens| ==> OtherToken(tokens[j])
    ensures TronPick(tokens) == Some(Native(Sun, 0.0))
  {
    if tokens != [] {
      assert OtherToken(tokens[0]);
      assert forall j :: 0 <= j < |tokens| - 1 ==> OtherToken(tokens[1..][j]) by {
        forall j | 0 <= j < |tokens| - 1 ensures OtherToken(tokens[1..][j]) {
          assert tokens[1..][j] == tokens[j + 1];
        }
      }
      TronPickNoTrx(tokens[1..]);
    }
  }

  /** The Tron branch of `get_balance`, as a value: `balances` first, then the
      top-level `balance`, else it falls through to the final `return None`. */
  function TronSpec(reply: Raw<TronAccount>): Option<Balance> {
    match reply
    case Raised => None
    case Returned(data) =>
      if data.balances.Some? then TronPick(data.balances.value)
      else if data.balance.Some? then SunOf(data.balance.value)
      else None
  }

  /** The Tron branch of `get_balance`, with its loop over `balances`. */
  method TronBalance(reply: Raw<TronAccount>) returns (b: Option<Balance>)
    ensures b == TronSpec(reply)
  {
    if reply.Raised? {
      return None;
    }
    var data := reply.value;
    if data.balances.Some? {
      var tokens := data.balances.value;
      var i := 0;
      while i < |tokens|
        invariant 0 <= i <= |tokens|
        invariant TronPick(tokens[i..]) == TronPick(tokens)
      {
        var t := tokens[i];
        if t.tokenName.None? {
          return None;
        }
        if t.tokenName.value == "trx" {
          return SunOf(t.balance);
        }
        assert tokens[i..][1..] == tokens[i + 1..];
        i := i + 1;
      }
      return Some(Native(Sun, 0.0));
    } else if data.balance.Some? {
      return SunOf(data.balance.value);
    }
    return None;
  }

  /** What each service returns for the address being looked up. */
  datatype Network = Network(
    blockchainInfo: Raw<real>,         // float() of the address-balance text
    ethNode: string -> RpcReply,       // each node's answer to eth_getBalance
    tronscan: Raw<TronAccount>,        // the decoded account JSON
    blockcypher: string -> Raw<real>)  // per coin code: the decoded JSON's `balance`

  /** A service that answers with one number in satoshi-sized units. */
  function SatoshiOf(x: Raw<real>): Option<Balance> {
    match x
    case Raised => None
    case Returned(v) => Some(Native(Satoshi, v))
  }

  /** `get_balance`, as a value. */
  function BalanceSpec(coin: string, address: string, net: Network): Option<Balance> {
    match Route(coin)
    case BlockchainInfo => SatoshiOf(net.blockchainInfo)
    case EthereumRpc => EthereumSpec(address, net.ethNode)
    case Tronscan => TronSpec(net.tronscan)
    case Blockcypher(code) => SatoshiOf(net.blockcypher(code))
    case NoChain => None
  }

  /** `get_balance`. */
  method GetBalance(coin: string, address: string, net: Network) returns (b: Option<Balance>)
    ensures b == BalanceSpec(coin, address, net)
  {
    match Route(coin) {
      case BlockchainInfo => b := SatoshiOf(net.blockchainInfo);
      case EthereumRpc => var contacted; b, contacted := EthereumBalance(address, net.ethNode);
      case Tronscan => b := TronBalance(net.tronscan);
      case Blockcypher(code) => b := SatoshiOf(net.blockcypher(code));
      case NoChain => b := None;
    }
  }

  /** The `-1` sentinel comes only from the Ethereum branch, exactly when the
      address fails the shape check, whatever the network does. */
  lemma SentinelOnlyForMalformedEthereum(coin: string, address: string, net: Network)
    ensures BalanceSpec(coin, address, net) == Some(InvalidAddress) <==>
            Route(coin) == EthereumRpc && !EthAddressShape(address)
  {
  }

  /** Any 42-character string that starts with `0x` passes the shape check,
      forty `z`s after the prefix included: nothing looks at the hex digits. */
  lemma NoHexDigitCheck(rest: string)
    requires |rest| == 40
    ensures EthAddressShape("0x" + rest)
  {
    assert ("0x" + rest)[..2] == "0x";
  }
}
