/**
 * The wallet store: one keystore record kept in a single file with its
 * permission bits, and the read accessors built on loading it
 * (evm-wallet/src/lib/wallet.js).
 */
module WalletStore {
  import opened Wrappers
  import opened Chains

  /**
   * A record as JSON.parse returns it from the wallet file. Each field is
   * either absent or a string.
   */
  datatype Record = Record(address: Option<string>, privateKey: Option<string>, createdAt: Option<string>)

  /**
   * What the path holds: something present that the process cannot read
   * (no read permission, a directory), with the runtime's error text; text
   * that is not JSON; or a parsed record.
   */
  datatype FileContent = Unreadable(message: string) | Unparsable | Parsed(record: Record)

  /**
   * A failure of the file system during a save, as reported by the runtime:
   * the file cannot be opened for writing (nothing happens); the write fails
   * after the open has created or truncated the file (what is left is an
   * empty or partial text, never a complete record); or chmod fails after a
   * complete write.
   */
  datatype IoFault =
    | NoFault
    | OpenFault(message: string)
    | WriteFault(message: string)
    | ChmodFault(message: string)

  /** A signing account; derivation of the account from the key is not modelled. */
  datatype Account = Account(privateKey: string)

  /** What getWalletInfo returns: the public part of the record. */
  datatype WalletInfo = WalletInfo(address: string, createdAt: Option<string>)

  datatype Currency = Currency(name: string, symbol: string, decimals: nat)

  /** The chain description handed to the client library. */
  datatype ViemChain = ViemChain(
    id: nat,
    name: string,
    nativeCurrency: Currency,
    defaultHttp: seq<string>,
    publicHttp: seq<string>,
    explorerName: string,
    explorerUrl: string)

  /** The client configuration built by getWalletClient. */
  datatype WalletClient = WalletClient(
    account: Account,
    chain: ViemChain,
    transportUrl: string,
    retryCount: nat,
    timeoutMs: nat)

  /** Owner read and write only (octal 600). */
  const OwnerOnly: nat := 384
  const RetryCount: nat := 3
  const TimeoutMs: nat := 30000

  const NoWalletMessage := "No wallet found. Run setup.js first to generate a wallet."
  const LoadPrefix := "Failed to load wallet: "
  const SavePrefix := "Failed to save wallet: "
  const MissingFieldsMessage := "Invalid wallet file: missing required fields"
  /** The text of JSON.parse's error is the runtime's; only its presence is modelled. */
  const ParseErrorMessage := "JSON parse error"

  /** JavaScript truthiness of an optional string field. */
  predicate Truthy(f: Option<string>) { f.Some? && f.value != "" }

  /** A record load accepts: both the key and the address are truthy. */
  predicate Complete(rec: Record) { Truthy(rec.privateKey) && Truthy(rec.address) }

  /** The public view of a record; the private key has no place in it. */
  function InfoOf(rec: Record): (info: WalletInfo)
    requires Complete(rec)
    ensures info.address == rec.address.value && info.createdAt == rec.createdAt
  {
    WalletInfo(rec.address.value, rec.createdAt)
  }

  /** The information returned never depends on the private key. */
  lemma InfoIgnoresKey(rec: Record, key: string)
    requires Complete(rec) && key != ""
    ensures InfoOf(rec.(privateKey := Some(key))) == InfoOf(rec)
  {
  }

  /** The chain configuration built from a registry entry. */
  function ViemChainOf(c: ChainConfig): (v: ViemChain)
    ensures v.id == c.chainId
    ensures v.defaultHttp == c.rpcs && v.publicHttp == c.rpcs
    ensures v.nativeCurrency == Currency(c.nativeToken.symbol, c.nativeToken.symbol, c.nativeToken.decimals)
  {
    ViemChain(c.chainId, c.name,
      Currency(c.nativeToken.symbol, c.nativeToken.symbol, c.nativeToken.decimals),
      c.rpcs, c.rpcs, c.explorer.name, c.explorer.url)
  }

  /** The registry entry a client configuration was built from. */
  function ConfigOf(v: ViemChain): ChainConfig
  {
    ChainConfig(v.id, v.name, NativeToken(v.nativeCurrency.symbol, v.nativeCurrency.decimals),
      Explorer(v.explorerName, v.explorerUrl), v.defaultHttp)
  }

  /** Building the client configuration loses nothing of the registry entry. */
  lemma ViemChainRoundTrip(c: ChainConfig)
    ensures ConfigOf(ViemChainOf(c)) == c
  {
  }

  /** The wallet file at its fixed path, and its permission bits. */
  class Store {
    var file: Option<FileContent>
    var mode: nat
    /** The permission bits a newly created file receives (the process's umask applied). */
    const createMode: nat

    constructor (file: Option<FileContent>, mode: nat, createMode: nat)
      ensures this.file == file && this.mode == mode && this.createMode == createMode
    {
      this.file := file;
      this.mode := mode;
      this.createMode := createMode;
    }

    /** exists: whether the file is present; load reports "no wallet" exactly when it is not. */
    function Exists(): (b: bool)
      reads this
      ensures b <==> Load() != Success(None)
      ensures !b ==> GetWalletInfo() == Success(None) && GetAddress().Failure? && GetAccount().Failure?
    {
      file.Some?
    }

    /**
     * load: "absent" when there is no file; the record when it can be read,
     * parses and has a truthy key and address; otherwise an error with the
     * load prefix, carrying the read error when the file cannot be read.
     */
    function Load(): (r: Result<Option<Record>>)
      reads this
      ensures r == Success(None) <==> file.None?
      ensures r.Success? && r.value.Some? <==> file.Some? && file.value.Parsed? && Complete(file.value.record)
      ensures r.Success? && r.value.Some? ==> r.value.value == file.value.record
      ensures file.Some? && file.value.Unreadable? ==> r == Failure(LoadPrefix + file.value.message)
      ensures r.Failure? ==>
        || r.error == LoadPrefix + ParseErrorMessage
        || r.error == LoadPrefix + MissingFieldsMessage
        || (file.Some? && file.value.Unreadable? && r.error == LoadPrefix + file.value.message)
    {
      match file
      case None => Success(None)
      case Some(Unreadable(msg)) => Failure(LoadPrefix + msg)
      case Some(Unparsable) => Failure(LoadPrefix + ParseErrorMessage)
      case Some(Parsed(rec)) =>
        if Complete(rec) then Success(Some(rec)) else Failure(LoadPrefix + MissingFieldsMessage)
    }

    /**
     * save: opens the file for writing (creating or truncating it), writes
     * the record, then restricts the file to its owner. A failed open changes
     * nothing; a write that fails after the open leaves a file that no longer
     * loads; a failed chmod leaves the written record with the bits it had
     * before. Every failure is reported with the save prefix.
     */
    method Save(w: Record, fault: IoFault) returns (r: Result<()>)
      modifies this`file, this`mode
      ensures r.Success? <==> fault.NoFault?
      ensures r.Failure? ==> r.error == SavePrefix + fault.message
      ensures fault.NoFault? ==> file == Some(Parsed(w)) && mode == OwnerOnly
      ensures fault.NoFault? && Complete(w) ==> Load() == Success(Some(w))
      ensures fault.OpenFault? ==> file == old(file) && mode == old(mode)
      ensures fault.WriteFault? ==> file == Some(Unparsable) && Load() == Failure(LoadPrefix + ParseErrorMessage)
      ensures fault.ChmodFault? ==> file == Some(Parsed(w))
      ensures fault.WriteFault? || fault.ChmodFault? ==>
        mode == if old(file).Some? then old(mode) else createMode
    {
      match fault
      case OpenFault(msg) =>
        return Failure(SavePrefix + msg);
      case WriteFault(msg) =>
        if file.None? {
          mode := createMode;
        }
        file := Some(Unparsable);
        return Failure(SavePrefix + msg);
      case ChmodFault(msg) =>
        if file.None? {
          mode := createMode;
        }
        file := Some(Parsed(w));
        return Failure(SavePrefix + msg);
      case NoFault =>
        if file.None? {
          mode := createMode;
        }
        file := Some(Parsed(w));
        mode := OwnerOnly;
        return Success(());
    }

    /** getAccount, as a gate: fails when no wallet can be loaded, else the account of the stored key. */
    function GetAccount(): (r: Result<Account>)
      reads this
      ensures file.None? ==> r == Failure(NoWalletMessage)
      ensures Load().Failure? ==> r == Failure(Load().error)
      ensures r.Success? <==> Load().Success? && Load().value.Some?
      ensures r.Success? ==> r.value == Account(file.value.record.privateKey.value)
    {
      var w :- Load();
      if w.None? then Failure(NoWalletMessage) else Success(Account(w.value.privateKey.value))
    }

    /** getAddress: the stored address, failing as getAccount does. */
    function GetAddress(): (r: Result<string>)
      reads this
      ensures file.None? ==> r == Failure(NoWalletMessage)
      ensures r.Success? <==> GetAccount().Success?
      ensures r.Failure? ==> r.error == GetAccount().error
      ensures r.Success? ==> Some(r.value) == file.value.record.address && r.value != ""
    {
      var w :- Load();
      if w.None? then Failure(NoWalletMessage) else Success(w.value.address.value)
    }

    /** getWalletInfo: null without a wallet, else the address and creation time only. */
    function GetWalletInfo(): (r: Result<Option<WalletInfo>>)
      reads this
      ensures r == Success(None) <==> file.None?
      ensures r.Failure? <==> Load().Failure?
      ensures r.Failure? ==> r.error == Load().error
      ensures r.Success? && r.value.Some? ==>
        Some(r.value.value.address) == file.value.record.address && r.value.value.createdAt == file.value.record.createdAt
    {
      var w :- Load();
      if w.None? then Success(None) else Success(Some(InfoOf(w.value)))
    }

    /**
     * getWalletClient: looks the chain up first, so an unknown name fails the
     * same way whatever the wallet file holds; then loads the account and
     * binds the transport to the first RPC endpoint.
     */
    function GetWalletClient(name: string): (r: Result<WalletClient>)
      reads this
      ensures GetChain(name).Failure? ==> r == Failure(GetChain(name).error)
      ensures GetChain(name).Success? && GetAccount().Failure? ==> r == Failure(GetAccount().error)
      ensures r.Success? <==> GetChain(name).Success? && GetAccount().Success?
      ensures r.Success? ==>
        var c := GetChain(name).value;
        && r.value.account == GetAccount().value
        && r.value.chain.id == c.chainId
        && r.value.chain.defaultHttp == c.rpcs && r.value.chain.publicHttp == c.rpcs
        && r.value.transportUrl == c.rpcs[0]
        && ConfigOf(r.value.chain) == c
    {
      var chain :- GetChain(name);
      var account :- GetAccount();
      ViemChainRoundTrip(chain);
      Success(WalletClient(account, ViemChainOf(chain), chain.rpcs[0], RetryCount, TimeoutMs))
    }
  }

  /** A wallet saved without fault is what the next load returns, and only its owner may read it. */
  method SaveThenLoad(store: Store, w: Record) returns (loaded: Result<Option<Record>>)
    requires Complete(w)
    modifies store
    ensures loaded == Success(Some(w)) && store.mode == OwnerOnly
    ensures store.GetAddress() == Success(w.address.value)
    ensures store.GetWalletInfo() == Success(Some(WalletInfo(w.address.value, w.createdAt)))
  {
    var saved := store.Save(w, NoFault);
    loaded := store.Load();
  }
}
