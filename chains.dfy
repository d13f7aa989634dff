/**
 * The chain registry: a fixed table of four EVM chains keyed by lower-case
 * alias, a case-insensitive lookup, the list of aliases, and the block
 * explorer links built from an entry (evm-wallet/src/lib/chains.js).
 */
module Chains {
  import opened Wrappers
  import opened Strings

  datatype NativeToken = NativeToken(symbol: string, decimals: nat)
  datatype Explorer = Explorer(name: string, url: string)
  datatype ChainConfig = ChainConfig(
    chainId: nat,
    name: string,
    nativeToken: NativeToken,
    explorer: Explorer,
    rpcs: seq<string>)

  /** The registry in declaration order, which is also the order of its keys. */
  const Table: seq<(string, ChainConfig)> := [
    ("bsc", ChainConfig(56, "BNB Smart Chain", NativeToken("BNB", 18),
      Explorer("BscScan", "https://bscscan.com"),
      ["https://binance.ankr.com", "https://bsc-dataseed.binance.org", "https://bsc.publicnode.com"])),
    ("opbnb", ChainConfig(204, "opBNB Mainnet", NativeToken("BNB", 18),
      Explorer("opBNBScan", "https://opbnbscan.com"),
      ["https://opbnb-mainnet-rpc.bnbchain.org", "https://opbnb.publicnode.com"])),
    ("bsc-testnet", ChainConfig(97, "BSC Testnet", NativeToken("tBNB", 18),
      Explorer("BscScan Testnet", "https://testnet.bscscan.com"),
      ["https://bsc-testnet.publicnode.com", "https://data-seed-prebsc-1-s1.binance.org:8545"])),
    ("opbnb-testnet", ChainConfig(5611, "opBNB Testnet", NativeToken("tBNB", 18),
      Explorer("opBNBScan Testnet", "https://testnet.opbnbscan.com"),
      ["https://opbnb-testnet-rpc.bnbchain.org"]))
  ]

  /** The keys of the table, in order (Object.keys). */
  function Keys(): (ks: seq<string>)
    ensures |ks| == |Table|
    ensures forall i :: 0 <= i < |Table| ==> ks[i] == Table[i].0
  {
    seq(|Table|, i requires 0 <= i < |Table| => Table[i].0)
  }

  /** The entry stored under an exact key, if any. */
  function Entry(key: string): (e: Option<ChainConfig>)
    ensures e.Some? <==> key in Keys()
    ensures e.Some? ==> exists i :: 0 <= i < |Table| && Table[i] == (key, e.value)
  {
    if key == Table[0].0 then Some(Table[0].1)
    else if key == Table[1].0 then Some(Table[1].1)
    else if key == Table[2].0 then Some(Table[2].1)
    else if key == Table[3].0 then Some(Table[3].1)
    else None
  }

  /** The aliases joined by ", ", one separator at a time. */
  lemma JoinedAliases()
    ensures Join(Keys(), ", ") == "bsc" + ", " + ("opbnb" + ", " + ("bsc-testnet" + ", " + "opbnb-testnet"))
  {
    var ks := Keys();
    assert ks == ["bsc", "opbnb", "bsc-testnet", "opbnb-testnet"];
    assert ks[1..][1..] == ks[2..] && ks[2..][1..] == ks[3..];
  }

  /** The failure text of getChain: the name as given, then the aliases joined by ", ". */
  function UnsupportedMessage(name: string): (m: string)
    ensures m == "Unsupported chain: " + name + ". Supported chains: " +
      ("bsc" + ", " + ("opbnb" + ", " + ("bsc-testnet" + ", " + "opbnb-testnet")))
  {
    JoinedAliases();
    "Unsupported chain: " + name + ". Supported chains: " + Join(Keys(), ", ")
  }

  /**
   * getChain: looks the lower-cased name up among the table's own keys and
   * fails with the "Unsupported chain" message otherwise.
   */
  function GetChain(name: string): (r: Result<ChainConfig>)
    ensures r.Success? <==> ToLower(name) in Keys()
    ensures r.Success? ==> exists i :: 0 <= i < |Table| && Table[i] == (ToLower(name), r.value)
    ensures r.Success? ==> r.value.rpcs != [] && r.value.nativeToken.decimals == 18
    ensures r.Failure? ==> r.error == UnsupportedMessage(name)
  {
    match Entry(ToLower(name))
    case Some(c) => Success(c)
    case None => Failure(UnsupportedMessage(name))
  }

  /** getSupportedChains: the aliases, in declaration order. */
  function GetSupportedChains(): (ks: seq<string>)
    ensures ks == ["bsc", "opbnb", "bsc-testnet", "opbnb-testnet"]
    ensures forall k :: k in ks ==> IsLower(k) && GetChain(k).Success?
    ensures forall name :: GetChain(name).Success? <==> ToLower(name) in ks
  {
    forall k | k in Keys() ensures IsLower(k) && GetChain(k).Success? {
      ToLowerOfLower(k);
    }
    Keys()
  }

  /** Lookup ignores case: two names with the same lower-case form find the same entry. */
  lemma GetChainCaseInsensitive(a: string, b: string)
    requires ToLower(a) == ToLower(b)
    ensures GetChain(a).Success? <==> GetChain(b).Success?
    ensures GetChain(a).Success? ==> GetChain(a).value == GetChain(b).value
  {
  }

  /** Worked lookups: "BSC" is "bsc", "OpBnB" is chain 204, and "eth" is not supported. */
  lemma GetChainUpperCaseBsc()
    ensures GetChain("BSC") == GetChain("bsc") == Success(Table[0].1)
    ensures GetChain("OpBnB").Success? && GetChain("OpBnB").value.chainId == 204
    ensures GetChain("eth").Failure?
  {
    LookupBsc();
    LookupOpBnB();
    LookupEth();
  }

  lemma LookupBsc()
    ensures GetChain("BSC") == GetChain("bsc") == Success(Table[0].1)
  {
    assert ToLower("BSC") == "bsc";
    ToLowerOfLower("bsc");
  }

  lemma LookupOpBnB()
    ensures GetChain("OpBnB") == Success(Table[1].1)
  {
    assert ToLower("OpBnB") == "opbnb";
  }

  lemma LookupEth()
    ensures GetChain("eth").Failure?
  {
    ToLowerOfLower("eth");
    NoEntryOutsideAliases("eth");
  }

  /** The failure message names every supported alias. */
  lemma {:induction false} UnsupportedMessageListsAliases(name: string, i: nat)
    requires GetChain(name).Failure?
    requires i < |Keys()|
    ensures Contains(GetChain(name).error, Keys()[i])
  {
    JoinContainsEach(Keys(), ", ", i);
    ContainsAfterPrefix("Unsupported chain: " + name + ". Supported chains: ", Join(Keys(), ", "), Keys()[i]);
  }

  /**
   * Facts about the table: every entry has at least one RPC endpoint, every
   * native token has 18 decimals, and keys and chain ids are pairwise distinct.
   */
  lemma RegistryWellFormed()
    ensures forall i :: 0 <= i < |Table| ==> Table[i].1.rpcs != [] && Table[i].1.nativeToken.decimals == 18
    ensures forall i, j :: 0 <= i < j < |Table| ==> Table[i].1.chainId != Table[j].1.chainId
    ensures forall i, j :: 0 <= i < j < |Table| ==> Table[i].0 != Table[j].0
    ensures [Table[0].1.chainId, Table[1].1.chainId, Table[2].1.chainId, Table[3].1.chainId] == [56, 204, 97, 5611]
  {
  }

  /** getExplorerTxUrl: explorer base URL, "/tx/", then the hash; fails exactly as getChain does. */
  function GetExplorerTxUrl(name: string, txHash: string): (r: Result<string>)
    ensures r.Success? <==> GetChain(name).Success?
    ensures r.Failure? ==> r.error == UnsupportedMessage(name)
    ensures r.Success? ==> r.value == GetChain(name).value.explorer.url + "/tx/" + txHash
  {
    var chain :- GetChain(name);
    Success(chain.explorer.url + "/tx/" + txHash)
  }

  /** getExplorerAddressUrl: explorer base URL, "/address/", then the address; fails exactly as getChain does. */
  function GetExplorerAddressUrl(name: string, address: string): (r: Result<string>)
    ensures r.Success? <==> GetChain(name).Success?
    ensures r.Failure? ==> r.error == UnsupportedMessage(name)
    ensures r.Success? ==> r.value == GetChain(name).value.explorer.url + "/address/" + address
  {
    var chain :- GetChain(name);
    Success(chain.explorer.url + "/address/" + address)
  }

  /**
   * A transaction link can be taken apart again: it starts with the chain's
   * explorer URL and the hash is what follows "/tx/", so two different hashes
   * never share a link.
   */
  lemma ExplorerTxUrlDecomposes(name: string, h1: string, h2: string)
    requires GetChain(name).Success?
    ensures var u := GetChain(name).value.explorer.url;
      var r := GetExplorerTxUrl(name, h1).value;
      r[..|u|] == u && r[|u|..|u| + 4] == "/tx/" && r[|u| + 4..] == h1
    ensures GetExplorerTxUrl(name, h1) == GetExplorerTxUrl(name, h2) ==> h1 == h2
  {
    var u := GetChain(name).value.explorer.url;
    var r1, r2 := GetExplorerTxUrl(name, h1).value, GetExplorerTxUrl(name, h2).value;
    assert r1[|u| + 4..] == h1;
    assert r2[|u| + 4..] == h2;
  }

  /** The two kinds of link on the same chain never coincide. */
  lemma ExplorerLinksDiffer(name: string, h: string, a: string)
    requires GetChain(name).Success?
    ensures GetExplorerTxUrl(name, h) != GetExplorerAddressUrl(name, a)
  {
    var u := GetChain(name).value.explorer.url;
    var t, d := GetExplorerTxUrl(name, h).value, GetExplorerAddressUrl(name, a).value;
    assert t[|u| + 1] == 't';
    assert d[|u| + 1] == 'a';
  }

  // ---------------------------------------------------------------------------
  // getChain as written: chains[key] on an object literal also finds the
  // properties every object inherits. The inherited names that are already
  // lower case are "constructor" and "__proto__"; their values (the Object
  // function and Object.prototype) are truthy, so the `!chain` guard lets
  // them through.

  const InheritedLowerNames: seq<string> := ["constructor", "__proto__"]

  /** What `chains[key]` yields: an own entry or an inherited member. */
  datatype Property = OwnEntry(config: ChainConfig) | InheritedMember(key: string)

  function GetChainAsWritten(name: string): (r: Result<Property>)
    ensures r.Success? <==> ToLower(name) in Keys() || ToLower(name) in InheritedLowerNames
    ensures r.Success? && r.value.OwnEntry? ==> GetChain(name) == Success(r.value.config)
  {
    var key := ToLower(name);
    match Entry(key)
    case Some(c) => Success(OwnEntry(c))
    case None =>
      if key in InheritedLowerNames then Success(InheritedMember(key))
      else Failure(UnsupportedMessage(name))
  }

  /** Every alias starts with 'b' or 'o', so a key starting otherwise has no entry. */
  lemma NoEntryOutsideAliases(key: string)
    requires key != [] && key[0] != 'b' && key[0] != 'o'
    ensures Entry(key) == None
  {
    assert Table[0].0[0] == 'b' && Table[1].0[0] == 'o' && Table[2].0[0] == 'b' && Table[3].0[0] == 'o';
  }

  /** "constructor" is accepted by the code as written, yet it names no chain. */
  lemma GetChainAsWrittenAcceptsConstructor(name: string)
    requires name == "constructor"
    ensures GetChainAsWritten(name) == Success(InheritedMember(name))
    ensures GetChain(name).Failure?
  {
    ConstructorHasNoEntry(name);
  }

  lemma ConstructorHasNoEntry(name: string)
    requires name == "constructor"
    ensures ToLower(name) == name && Entry(name) == None
  {
    assert IsLower(name);
    ToLowerOfLower(name);
    NoEntryOutsideAliases(name);
  }

  /** Apart from the inherited names, the code as written and the corrected lookup agree. */
  lemma GetChainAsWrittenAgrees(name: string)
    requires ToLower(name) !in InheritedLowerNames
    ensures GetChain(name).Success? ==> GetChainAsWritten(name) == Success(OwnEntry(GetChain(name).value))
    ensures GetChain(name).Failure? ==> GetChainAsWritten(name) == Failure(GetChain(name).error)
  {
  }
}
