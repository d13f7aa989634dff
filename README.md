# evm-wallet: chain registry, wallet store and bridge script

This project models the core of `evm-wallet`, a command-line wallet for BNB
Smart Chain and opBNB, in Dafny. It covers three files:

- `src/lib/chains.js`: the registry of the four supported chains (bsc, opbnb,
  bsc-testnet, opbnb-testnet), looked up by case-insensitive alias, and the
  block-explorer links built from it (`chains.dfy`, module `Chains`).
- `src/lib/wallet.js`: the keystore. One JSON record holds the address, the
  private key and the creation time, and the file is kept owner-only. The
  module has the accessors built on loading it and the wallet-client
  configuration for a chain (`wallet.dfy`, module `WalletStore`). The file is
  the state of the class `Store`: its content and its permission bits.
  `save` changes both.
- `src/bridge.js`: the cross-chain bridge script. It does the following:
  - checks the arguments and that a wallet exists;
  - resolves the chain arguments through its alias map, or `parseInt` when no
    alias matches, and accepts only 56 and 204;
  - scales the amount to 18 decimals;
  - asks the LI.FI quote service for a route;
  - sends the one transaction the quote returns.

  `bridge_input.dfy` (module `BridgeInput`) holds the argument handling,
  `parseInt`, the alias resolution and `parseUnits`. `bridge.dfy` (module
  `Bridge`) holds `getQuote` and `main`. `main` is the method `Bridge.Run`. It
  takes the quote service and the transaction sender as function parameters
  and returns the outcome together with the list of external calls it made.

`strings.dfy` holds the JavaScript string behaviour the core relies on:
ASCII `toLowerCase`, `join`, and decimal rendering and reading of natural
numbers. `wrappers.dfy` holds `Option` and `Result`.

### Where the documentation and the code differ

The model follows the code in each case.

- Only a missing wallet and a chain outside the allow-list call
  `process.exit(1)` (`bridge.js:63-66`, `bridge.js:80-83`). A failed quote, a
  malformed quote and a failed send happen inside `main`'s `try`
  (`bridge.js:115-141`): the error is printed and the process ends normally.
  The model gives the outcome `Reported(message)` for them, not `Exit`.
- A wallet file that exists but cannot be loaded makes `getAddress` throw at
  `bridge.js:68`, outside the `try`. The model gives `Crash`, an error nothing
  catches; `main()` (`bridge.js:144`) has no `.catch`, so a current Node ends
  the process with code 1 for it as well.
- The script's help text (`bridge.js:27-28`) mentions chains such as 'eth' and 'poly'. The code
  accepts only ids 56 and 204 (`bridge.js:80-83`), and the model does the
  same.
- The token's decimals are always 18 (`bridge.js:101`). The lookup of token
  precision that the comments describe does nothing.

## Model

| member | source | states |
|---|---|---|
| Strings.ToLower | evm-wallet/src/lib/chains.js:82 | lower-casing keeps the length, maps each character on its own and turns A–Z into a–z, leaving every other character alone |
| Strings.ToLowerOfLower | evm-wallet/src/lib/chains.js:82 | text with no upper-case letter is its own lower-case form |
| Strings.ToLowerIdempotent | evm-wallet/src/lib/chains.js:82 | lower-casing twice is lower-casing once, and the result has no upper-case letter |
| Strings.Join | evm-wallet/src/lib/chains.js:84 | the joined text starts with the first element and ends with the last; with two or more elements the separator follows the first element |
| Strings.JoinContainsEach | evm-wallet/src/lib/chains.js:84 | the joined list contains every one of its elements |
| Strings.NatToStringRoundTrip | evm-wallet/src/bridge.js:39-48 | the decimal rendering of a number reads back as the same number, and starts with a non-zero digit when the number is positive |
| Strings.HexValue | evm-wallet/src/bridge.js:133-134 | the value of n hexadecimal digits is below 16^n |
| Strings.HexValueAppend | evm-wallet/src/bridge.js:133-134 | appending hexadecimal digits multiplies the value so far by 16 per digit and adds the value of the digits |
| Chains.Keys | evm-wallet/src/lib/chains.js:6-74 | the own keys of the registry, in declaration order |
| Chains.Entry | evm-wallet/src/lib/chains.js:82 | an own-key lookup finds a chain exactly when the key is one of the four aliases, and it finds that alias's entry |
| Chains.UnsupportedMessage | evm-wallet/src/lib/chains.js:84 | the failure text is "Unsupported chain: ", the name as given, ". Supported chains: " and the four aliases joined by ", " |
| Chains.GetChain | evm-wallet/src/lib/chains.js:81-87 | succeeds exactly when the lower-cased name is an alias, and returns that alias's entry, which has an RPC endpoint and an 18-decimal native token; otherwise fails with "Unsupported chain: <name>. Supported chains: bsc, opbnb, bsc-testnet, opbnb-testnet" |
| Chains.GetSupportedChains | evm-wallet/src/lib/chains.js:93-95 | the four aliases in declaration order; each is lower case and accepted by getChain, and getChain accepts a name exactly when its lower-case form is in this list |
| Chains.GetChainCaseInsensitive | evm-wallet/src/lib/chains.js:82 | two names with the same lower-case form find the same chain, or both fail |
| Chains.GetChainUpperCaseBsc | evm-wallet/src/lib/chains.js:81-87 | "BSC" finds the bsc entry, "OpBnB" finds chain 204, and "eth" is unsupported |
| Chains.UnsupportedMessageListsAliases | evm-wallet/src/lib/chains.js:84 | the failure message names every supported alias |
| Chains.RegistryWellFormed | evm-wallet/src/lib/chains.js:6-74 | every entry has an RPC endpoint and an 18-decimal native token; aliases and chain ids are pairwise distinct; the ids are 56, 204, 97 and 5611 |
| Chains.GetExplorerTxUrl | evm-wallet/src/lib/chains.js:103-106 | succeeds exactly when getChain does and fails with the same message; the link is the explorer URL, "/tx/", then the hash |
| Chains.GetExplorerAddressUrl | evm-wallet/src/lib/chains.js:114-117 | succeeds exactly when getChain does and fails with the same message; the link is the explorer URL, "/address/", then the address |
| Chains.ExplorerTxUrlDecomposes | evm-wallet/src/lib/chains.js:103-106 | a transaction link splits back into the explorer URL, "/tx/" and the hash, so different hashes give different links |
| Chains.ExplorerLinksDiffer | evm-wallet/src/lib/chains.js:103-117 | on the same chain, a transaction link never equals an address link |
| Chains.GetChainAsWritten | evm-wallet/src/lib/chains.js:81-87 | the lookup as written also succeeds for the inherited lower-case property names; its own-entry results are getChain's |
| Chains.GetChainAsWrittenAcceptsConstructor | evm-wallet/src/lib/chains.js:82-83 | "constructor" gets past the `!chain` guard as written, although no chain has that name |
| Chains.GetChainAsWrittenAgrees | evm-wallet/src/lib/chains.js:81-87 | for every name other than the inherited ones, the code as written and the corrected lookup give the same chain or the same error |
| WalletStore.InfoOf | evm-wallet/src/lib/wallet.js:155-158 | the public view of a record carries its address and creation time |
| WalletStore.InfoIgnoresKey | evm-wallet/src/lib/wallet.js:145-158 | the wallet information does not depend on the private key |
| WalletStore.ViemChainOf | evm-wallet/src/lib/wallet.js:107-125 | the client's chain has the registry id; its default and public RPC lists are the registry's; its currency uses the native symbol as both name and symbol, with the registry decimals |
| WalletStore.ViemChainRoundTrip | evm-wallet/src/lib/wallet.js:107-125 | building the client's chain description loses nothing of the registry entry |
| WalletStore.Store.Exists | evm-wallet/src/lib/wallet.js:141-143 | the file is present exactly when load does not report "no wallet"; without it, getWalletInfo is null and getAddress and getAccount fail |
| WalletStore.Store.Load | evm-wallet/src/lib/wallet.js:35-53 | null exactly when there is no file; the record exactly when it can be read, parses and has a truthy key and address; a file that cannot be read fails with the prefix and the read error; otherwise an error with the "Failed to load wallet: " prefix |
| WalletStore.Store.Save | evm-wallet/src/lib/wallet.js:59-69 | without a fault, the record is written and the mode is owner-only (0o600), so the next load returns the record; a failed open changes nothing; a write that fails after the open has created or truncated the file leaves text that no longer loads; a failed chmod leaves the record written; after either of those two faults, the mode is the previous one, or the create mode for a new file; every failure is reported with the save prefix |
| WalletStore.SaveThenLoad | evm-wallet/src/lib/wallet.js:59-69 | a complete record, saved, is what load, getAddress and getWalletInfo then return, and the file is owner-only |
| WalletStore.Store.GetAccount | evm-wallet/src/lib/wallet.js:75-82 | fails with the no-wallet message when there is no file and with load's error when load fails; otherwise it is the account of the stored key |
| WalletStore.Store.GetAddress | evm-wallet/src/lib/wallet.js:88-95 | succeeds and fails exactly as getAccount does; the address is the stored, non-empty one |
| WalletStore.Store.GetWalletInfo | evm-wallet/src/lib/wallet.js:149-158 | null exactly when there is no file; fails exactly when load fails, with load's error; otherwise the stored address and creation time |
| WalletStore.Store.GetWalletClient | evm-wallet/src/lib/wallet.js:102-135 | an unknown chain fails first, with getChain's error, whatever the file holds; then the account's failure; otherwise the client signs with the stored key, uses the chain's id and RPC list, sends through the first RPC endpoint, and its chain description gives back the registry entry |
| BridgeInput.Positional | evm-wallet/src/bridge.js:61 | the positional arguments are no more than the arguments |
| BridgeInput.HelpRequested | evm-wallet/src/bridge.js:18 | help is requested exactly when "--help" or "-h" is among the arguments, and then an option argument is present |
| BridgeInput.PositionalAppend | evm-wallet/src/bridge.js:61 | filtering distributes over concatenation: the positional arguments of a + b are those of a followed by those of b |
| BridgeInput.PositionalSkipsOption | evm-wallet/src/bridge.js:61 | an option between arguments is dropped and the arguments around it keep their order |
| BridgeInput.PositionalMembers | evm-wallet/src/bridge.js:61 | an argument is positional exactly when it was given and does not start with '-' |
| BridgeInput.PositionalOfPlain | evm-wallet/src/bridge.js:61 | when no argument starts with '-', the positional arguments are all the arguments, in order |
| BridgeInput.TrimStart | evm-wallet/src/bridge.js:76-77 | parseInt's leading white space (ECMAScript WhiteSpace and LineTerminator, including every Unicode space separator) is a prefix that is removed completely, and nothing else is removed |
| BridgeInput.DigitPrefix | evm-wallet/src/bridge.js:76-77 | parseInt reads the longest prefix of decimal digits |
| BridgeInput.HexPrefix | evm-wallet/src/bridge.js:76-77 | after "0x", parseInt reads the longest prefix of hexadecimal digits |
| BridgeInput.ParseInt | evm-wallet/src/bridge.js:76-77 | parseInt yields an exact integer or NaN, never a non-number (JavaScript's rounding to a Number is listed under Left out) |
| BridgeInput.ParseIntOfNatToString | evm-wallet/src/bridge.js:76-77 | parseInt reads back the decimal rendering of every natural number |
| BridgeInput.ParseIntIgnoresSuffix | evm-wallet/src/bridge.js:76-77 | parseInt of digits followed by text that starts with a non-digit is the value of the digits |
| BridgeInput.ParseIntSkipsSpace | evm-wallet/src/bridge.js:76-77 | leading white space does not change what parseInt reads |
| BridgeInput.ParseIntSigned | evm-wallet/src/bridge.js:76-77 | after '+' parseInt reads the magnitude, after '-' its negation, and NaN when no digit follows |
| BridgeInput.ParseIntHex | evm-wallet/src/bridge.js:76-77 | after "0x" or "0X", parseInt reads the hexadecimal digits up to the first character that is not one |
| BridgeInput.ParseIntNaN | evm-wallet/src/bridge.js:76-77 | text that is empty or starts with no white space, sign or digit is NaN |
| BridgeInput.ParseIntHexNoDigits | evm-wallet/src/bridge.js:76-77 | "0x" or "0X" followed by no hexadecimal digit is NaN |
| BridgeInput.AliasId | evm-wallet/src/bridge.js:71-76 | the alias map gives an id exactly for its keys, and gives that key's id |
| BridgeInput.ResolveChainId | evm-wallet/src/bridge.js:71-77 | "bsc" and "binance", in any case, give 56 and "opbnb" gives 204; the inherited names give a non-number; any other argument is read with parseInt |
| BridgeInput.ResolveNumeric | evm-wallet/src/bridge.js:76-77 | a chain id written in decimal resolves to itself |
| BridgeInput.ResolvesByParseInt | evm-wallet/src/bridge.js:76-77 | an argument that starts with neither a letter nor '_' is read with parseInt |
| BridgeInput.ResolveEth | evm-wallet/src/bridge.js:76-83 | "eth", which the help text names, is no alias, parses to NaN and is refused by the allow-list |
| BridgeInput.ResolveSpaced | evm-wallet/src/bridge.js:76-77 | a chain id after leading white space resolves to the id |
| BridgeInput.ResolveSigned | evm-wallet/src/bridge.js:76-77 | a chain id after '+' resolves to the id, after '-' to its negation |
| BridgeInput.ResolveHex | evm-wallet/src/bridge.js:76-77 | a chain id in hexadecimal after "0x" or "0X" resolves to its value |
| BridgeInput.Bridgeable | evm-wallet/src/bridge.js:80 | a resolved value passes the allow-list exactly when it is 56 or 204; NaN and non-numbers never pass |
| BridgeInput.SourceAlias | evm-wallet/src/bridge.js:97 | the alias found for an id is its first alias in declaration order, and there is one exactly when some alias maps to the id |
| BridgeInput.SourceAliasOfBridgeable | evm-wallet/src/bridge.js:97-98 | 56 gives "bsc" and 204 gives "opbnb"; both are registry aliases whose chain id is the id itself |
| BridgeInput.IndexOfDot | evm-wallet/src/bridge.js:113 | the position of the first '.', if any |
| BridgeInput.TrimTrailingZeros | evm-wallet/src/bridge.js:113 | the fraction is the result followed by zeros, and the result does not end in '0' |
| BridgeInput.ParseUnits | evm-wallet/src/bridge.js:113 | an amount with more significant fraction digits than the decimals is outside the model; a converted amount has an integer part and a fraction made of digits, so it holds at most one '.' |
| BridgeInput.ParseUnitsRejectsSecondDot | evm-wallet/src/bridge.js:113 | an amount with two '.' is not converted |
| BridgeInput.ParseUnitsDecimal | evm-wallet/src/bridge.js:113 | "i.f" with at most d fraction digits is i·10^d + f·10^(d−\|f\|) base units |
| BridgeInput.ParseUnitsWhole | evm-wallet/src/bridge.js:113 | a whole amount i is i·10^d base units |
| BridgeInput.ParseUnitsExample | evm-wallet/src/bridge.js:101-113 | 1.5 tokens with 18 decimals are 1500000000000000000 base units |
| Bridge.QuoteQuery | evm-wallet/src/bridge.js:38-48 | the request carries the eight parameters in order: the chains, the tokens, the amount, the address, integrator "CyberPay" and fee "0.003" |
| Bridge.QuoteQueryReadsBack | evm-wallet/src/bridge.js:39-48 | the chain ids and the base-unit amount can be read back from the request text |
| Bridge.IsOk | evm-wallet/src/bridge.js:51 | a response is ok exactly when its status is in the 2xx class |
| Bridge.QuoteErrorMessage | evm-wallet/src/bridge.js:51-54 | the error text starts with "LI.FI API Error: " and the status code, and ends with the response body |
| Bridge.QuoteResult | evm-wallet/src/bridge.js:50-55 | a quote comes back exactly when the status is 2xx and the body parses; a fetch rejection is passed on; a non-2xx status gives "LI.FI API Error: <status> <statusText> - <body>" |
| Bridge.QuoteErrorCarriesStatusAndBody | evm-wallet/src/bridge.js:51-54 | the error of a rejected quote contains the status code and the body |
| Bridge.BigIntOf | evm-wallet/src/bridge.js:133-134 | converts exactly decimal digits and "0x"/"0X" with hexadecimal digits, to their value; a missing field and any other text give an error |
| Bridge.BigIntOfRendering | evm-wallet/src/bridge.js:133-134 | BigInt reads back the decimal rendering of every natural number |
| Bridge.BigIntOfHex | evm-wallet/src/bridge.js:133-134 | BigInt reads "0x" or "0X" followed by hexadecimal digits as their value |
| Bridge.BuildSend | evm-wallet/src/bridge.js:130-135 | the transaction is built exactly when both value and gasLimit convert; it keeps `to` and `data` and carries the converted value and gas |
| Bridge.AmountText | evm-wallet/src/bridge.js:113 | the amount as the request writes it is the decimal rendering of the scaled amount, present exactly when the amount is inside the model |
| Bridge.BridgeableId | evm-wallet/src/bridge.js:76-83 | an argument gives an id exactly when it resolves to a bridgeable chain, and the id is 56 or 204 |
| Bridge.BridgeableAlias | evm-wallet/src/bridge.js:71-83 | each alias in the chain map, in any case, passes the check, as 56 or 204 |
| Bridge.ShowsHelp | evm-wallet/src/bridge.js:59 | the usage is shown if and only if there are fewer than five arguments or one of them is "--help" or "-h" |
| Bridge.SourceName | evm-wallet/src/bridge.js:97-98 | `sourceChainName \|\| 'bsc'` always names a registry chain, and for 56 or 204 that chain has the source id; without an alias it is "bsc" |
| Bridge.AmountTextOneAndAHalf | evm-wallet/src/bridge.js:101-113 | an amount of "1.5" is requested as "1500000000000000000" |
| Bridge.PlannedQuery | evm-wallet/src/bridge.js:59-116 | a quote is requested only when no help is shown, the wallet exists and loads, five positional arguments are given, both chains are bridgeable and the amount converts; the request carries the stored address and the scaled amount |
| Bridge.PlannedQueryWhenChecksPass | evm-wallet/src/bridge.js:59-116 | when every check passes, the request is built from the resolved ids, the token arguments, the scaled amount and the stored address |
| Bridge.EarlyOutcome | evm-wallet/src/bridge.js:59-113 | main stops before the quote exactly when no quote is planned: usage when help is shown; exit 1 without a wallet; the uncaught getAddress error when the file does not load; exit 1 for a chain outside the allow-list; a TypeError crash when fewer than two positional arguments are given; with both chains allowed and fewer than five, a crash in parseUnits whose error type depends on the viem version; the amount outside the model otherwise, when it is; never a sent or reported outcome |
| Bridge.BscToOpbnbQuery | evm-wallet/src/bridge.js:59-116 | bridging 1.5 from bsc to opbnb with a stored wallet requests a quote from 56 to 204 for 1500000000000000000 base units from the stored address |
| Bridge.Run | evm-wallet/src/bridge.js:58-142 | usage, exit 1 without a wallet, the uncaught getAddress error, and exit 1 for a chain outside the allow-list all make no external call; with no external call the outcome is the early one, and once a quote is requested it is sent or reported; at most two calls, the first being the planned quote request; a failed quote is reported and nothing is sent; a transaction is sent exactly when the quote succeeds with its route details, the source-chain client builds and the transaction converts; it is built from the quote, signed with the key stored in the same record whose address the quote names, on the source chain; the script calls send once and its result is the outcome |
| Bridge.QuoteAndSend | evm-wallet/src/bridge.js:115-141 | the quote is requested once; any error is reported; a transaction is sent exactly when the quote succeeded, has its route details and a transaction that converts, and the wallet client of the source chain builds; the sender's result becomes the outcome |

## Left out

- `generate` (`wallet.js:20-29`): key generation, address derivation and the clock are outside the model. A record is any value with three optional string fields.
- WalletStore.Account: the account is the stored private key; `privateKeyToAccount`'s key derivation is not modelled, nor its failure on a malformed stored key (`wallet.js:81`). In the source that error is caught inside main's `try`, printed, and nothing is sent; the model treats every stored key as valid, so `Bridge.Run` promises a send for such a key.
- WalletStore.Store.Load: the text of the file, JSON syntax and a JSON value that is not an object are summarised as "does not parse". The text of JSON.parse's error is not modelled. A file that is present but cannot be read (EACCES, EISDIR at `wallet.js:41`) is the content `Unreadable`, which load reports with its prefix; whether the process may read the file is part of that content, and `mode` does not decide it, since the owner's own rights and the process's identity are not modelled.
- WalletStore.Store.Save: the JSON layout written (`JSON.stringify` with two-space indentation) is not modelled; the file holds the record itself.
- The file system is the state of `Store`; the path in the home directory and the umask are not modelled beyond the parameter `createMode`.
- `createPublicClientWithRetry` (`bridge.js:98`): `src/lib/rpc.js` is not part of this model. The client it returns is never used, so its failure mode is left out.
- Console output is left out: the help text, progress lines, the quote summary and emoji. The outcome records the message main prints for an error.
- The network: `fetch` to the LI.FI endpoint is the `quoteService` parameter, and `walletClient.sendTransaction` (signing, nonce, gas handling, broadcasting) is the `send` parameter. The endpoint URL is not modelled.
- Bridge.QuoteResult: a body that is not valid JSON fails with a fixed message, not the runtime's message. A quote is reduced to the fields the script reads.
- Bridge.BigIntOf: only decimal digits and "0x" with hexadecimal digits are modelled. Surrounding white space, signs, "0o" and "0b" prefixes, and numbers that are not strings fail in the model.
- BridgeInput.ParseUnits: amounts with more significant fraction digits than 18 (viem rounds them), signs, more than one '.', and text other than digits and '.' give the outcome `AmountNotModelled`. Current viem rejects such text (except the long fractions) with an error outside main's `try`, before any network call; older viem versions read "1.2.3" as 1.2. The model takes neither path, and the viem version is not fixed by the repository.
- BridgeInput.ParseInt: JavaScript's `parseInt` returns a Number, a double: above 2^53 the value is rounded, a very long digit string gives Infinity, and "-0" gives -0. The model's `Id` holds the exact integer. The allow-list test at `bridge.js:80` is unaffected, because no rounded value, Infinity or -0 equals 56 or 204, and every integer up to 2^53 is exact.
- BridgeInput.ParseIntOfNatToString: stated for every natural number; JavaScript reads back the same value only up to 2^53 (see BridgeInput.ParseInt).
- BridgeInput.ParseIntIgnoresSuffix: gives the exact value of the digits; JavaScript rounds a long digit string to a Number (see BridgeInput.ParseInt).
- BridgeInput.ParseIntSigned: gives the exact negation; JavaScript gives -0 for "-0" and rounds large magnitudes (see BridgeInput.ParseInt).
- BridgeInput.ParseIntHex: gives the exact hexadecimal value; JavaScript rounds values above 2^53 (see BridgeInput.ParseInt).
- BridgeInput.ResolveNumeric: stated for every natural number; JavaScript resolves an id to itself only up to 2^53 (see BridgeInput.ParseInt).
- BridgeInput.ResolveSpaced: stated for every natural number; JavaScript resolves an id to itself only up to 2^53 (see BridgeInput.ParseInt).
- BridgeInput.ResolveSigned: gives the exact value; JavaScript gives -0 for "-0" and rounds large magnitudes (see BridgeInput.ParseInt).
- BridgeInput.ResolveHex: gives the exact hexadecimal value; JavaScript rounds values above 2^53 (see BridgeInput.ParseInt).
- Strings.ToLower: only ASCII letters are lower-cased; the Unicode case mapping of `toLowerCase` is not modelled.
- Bridge.Run: nothing checks that the stored private key derives the stored address: load accepts any record with both fields truthy (`wallet.js:45`), and the model's account holds only the key. The quote is requested for the stored address and the transaction is signed with the stored key; when they do not match, the two belong to different accounts.
- Bridge.Run: the transport built at `wallet.js:130-133` retries a failed request up to 3 times and times out after 30 s, inside `send`. These retries and time-outs are not modelled: the script calls send once.
- Bridge.Run: the messages of runtime errors (reading a property of `undefined`, BigInt rejecting its argument) are fixed constants. How the process ends after an uncaught error (`Crash`) is not modelled.
- The decimals lookup at `bridge.js:102-110` does nothing and is not modelled.

## Findings

| source | as written | input that shows it | evidently intended | confidence | as-written member | corrected member |
|---|---|---|---|---|---|---|
| evm-wallet/src/lib/chains.js:82-83 | `chains[chainName.toLowerCase()]` also finds properties every object inherits, and the `!chain` guard lets their truthy values through | `getChain("constructor")` returns the Object constructor instead of throwing "Unsupported chain" (so does `"__proto__"`); downstream, `getExplorerTxUrl("constructor", h)` and `getExplorerAddressUrl` then throw a TypeError reading `explorer.url` (`chains.js:105`, `chains.js:116`), and `getWalletClient("constructor")` fails with getAccount's error, such as "No wallet found", and with a wallet throws a TypeError reading `nativeToken.symbol` (`wallet.js:103-111`) | only the four aliases are accepted; every other name fails with the "Unsupported chain" message | not executed | Chains.GetChainAsWrittenAcceptsConstructor | Chains.GetChain |
