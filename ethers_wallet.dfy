/** The extension host's wallet service: a signing session with two slots,
    the RPC provider and the signer, which the service's operations fill,
    replace and check. The ethers library is outside the model: key
    generation, mnemonic derivation and every answer of the network are
    inputs. */
module EthersWallet {
  import opened Results
  import EtherUnits

  const DEFAULT_SEPOLIA_RPC := "https://ethereum-sepolia-rpc.publicnode.com"

  /** G_transaction, the base cost of a transaction (appendix G of the
      Ethereum yellow paper): the gas limit assumed when estimation fails. */
  const BASE_TRANSFER_GAS: nat := 21000

  const WALLET_NOT_INIT := "Wallet not init"
  const GAS_PRICE_UNAVAILABLE := "Unable to fetch gas price"
  const PROVIDER_NOT_INIT := "Provider not initialized"

  /** Raised by the signer library when an unbound wallet is asked to send;
      abbreviated: the library appends the operation, error code and version. */
  const MISSING_PROVIDER := "missing provider"

  /** A JSON-RPC provider for one endpoint; `serial` tells apart the
      providers made one after another for the same endpoint. */
  datatype Provider = JsonRpcProvider(url: string, serial: nat)

  /** The key material of one account. */
  datatype Keys = Keys(address: string, phrase: string, privateKey: string)

  /** An ethers wallet: its keys and the provider it was connected to, if any. */
  datatype Signer = Signer(keys: Keys, boundTo: Option<Provider>)

  /** What `walletCreate` hands to its caller. */
  datatype Created = Created(address: string, phrase: string, privKey: string)

  /** The one figure of the network's fee data the service reads. */
  datatype FeeData = FeeData(maxFeePerGas: Option<nat>)

  /** The fee estimate, in ether as text, with the raw 8-decimal ETH/USD
      answer the dollar figure is computed from. */
  datatype FeeEstimate = FeeEstimate(eth: string, ethUsdAnswer: int)

  /** `process.env.NAME || fallback`: an unset or empty variable gives the fallback. */
  function EnvOr(variable: Option<string>, fallback: string): (v: string)
    ensures v == fallback || (variable == Some(v) && v != "")
    ensures variable.Some? && variable.value != "" ==> v == variable.value
  {
    if variable.Some? && variable.value != "" then variable.value else fallback
  }

  /** The gas limit `estimateGasFee` multiplies by: the network's estimate
      when the amount parses and estimation succeeds, otherwise the base
      transfer cost. `parsedAmount` is what `parseEther(amount)` gave. */
  function GasLimit(parsedAmount: Option<nat>, estimate: Result<nat>): (g: nat)
    ensures g == BASE_TRANSFER_GAS || (estimate.Ok? && g == estimate.value)
    ensures parsedAmount.Some? && estimate.Ok? ==> g == estimate.value
    ensures parsedAmount.None? || estimate.Err? ==> g == BASE_TRANSFER_GAS
  {
    if parsedAmount.Some? && estimate.Ok? then estimate.value else BASE_TRANSFER_GAS
  }

  class WalletService {
    var provider: Option<Provider>
    var wallet: Option<Signer>
    /** How many providers the service has made so far. */
    var providersMade: nat
    const sepoliaRpc: string
    /** `ethers.Wallet.fromPhrase`: the keys a mnemonic derives, or the
        library's error for a phrase that is not a valid mnemonic. */
    const fromPhrase: string -> Result<Keys>

    constructor (sepoliaRpcVariable: Option<string>, fromPhrase: string -> Result<Keys>)
      ensures provider == None && wallet == None && providersMade == 0
      ensures sepoliaRpc == EnvOr(sepoliaRpcVariable, DEFAULT_SEPOLIA_RPC)
      ensures this.fromPhrase == fromPhrase
    {
      provider := None;
      wallet := None;
      providersMade := 0;
      sepoliaRpc := EnvOr(sepoliaRpcVariable, DEFAULT_SEPOLIA_RPC);
      this.fromPhrase := fromPhrase;
    }

    /** Always installs a new provider for the Sepolia endpoint, replacing
        any earlier one; the wallet keeps whatever binding it had. */
    method InitializeProvider()
      modifies this
      ensures provider == Some(JsonRpcProvider(sepoliaRpc, old(providersMade)))
      ensures providersMade == old(providersMade) + 1
      ensures wallet == old(wallet)
    {
      provider := Some(JsonRpcProvider(sepoliaRpc, providersMade));
      providersMade := providersMade + 1;
    }

    /** Replaces the wallet with a fresh random one, not connected to any
        provider, and returns its secrets. `random` is the key the library
        generated. */
    method WalletCreate(random: Keys) returns (r: Created)
      modifies this
      ensures wallet == Some(Signer(random, None))
      ensures provider == old(provider) && providersMade == old(providersMade)
      ensures r == Created(random.address, random.phrase, random.privateKey)
    {
      wallet := Some(Signer(random, None));
      r := Created(random.address, random.phrase, random.privateKey);
    }

    /** Replaces the wallet with the one the phrase derives, connected to the
        current provider exactly when there is one, and returns its address.
        An invalid phrase throws and leaves the wallet as it was. */
    method WalletConnect(phrase: string) returns (r: Result<string>)
      modifies this
      ensures provider == old(provider) && providersMade == old(providersMade)
      ensures fromPhrase(phrase).Err? ==> r == Err(fromPhrase(phrase).error) && wallet == old(wallet)
      ensures fromPhrase(phrase).Ok? ==>
        && wallet == Some(Signer(fromPhrase(phrase).value, old(provider)))
        && r == Ok(fromPhrase(phrase).value.address)
    {
      var derived := fromPhrase(phrase);
      if derived.Err? {
        return Err(derived.error);
      }
      wallet := Some(Signer(derived.value, None));
      if provider.Some? {
        wallet := Some(Signer(derived.value, provider));
      }
      r := Ok(derived.value.address);
    }

    /** Installs a provider first when there is none, then asks it for the
        balance of `address`; `balanceWei` is the network's answer. The
        wallet slot is never touched. */
    method GetWalletBalance(address: string, balanceWei: Result<nat>) returns (r: Result<string>)
      modifies this
      ensures provider.Some?
      ensures old(provider).Some? ==> provider == old(provider) && providersMade == old(providersMade)
      ensures old(provider).None? ==>
        && provider == Some(JsonRpcProvider(sepoliaRpc, old(providersMade)))
        && providersMade == old(providersMade) + 1
      ensures wallet == old(wallet)
      ensures balanceWei.Err? ==> r == Err(balanceWei.error)
      ensures balanceWei.Ok? ==> r == Ok(EtherUnits.FormatEther(balanceWei.value))
      ensures r.Ok? ==> EtherUnits.ParseEther(r.value) == Some(balanceWei.value)
    {
      if provider.None? {
        InitializeProvider();
      }
      if balanceWei.Err? {
        return Err(balanceWei.error);
      }
      EtherUnits.ParseFormatEther(balanceWei.value);
      r := Ok(EtherUnits.FormatEther(balanceWei.value));
    }

    /** Sends `amount` ether to `to` and waits for the transaction to be
        mined. Both slots must be filled; the signer then needs a provider of
        its own. `broadcast` is the network's answer to the submission (the
        hash) and `mined` the outcome of waiting for the receipt.
        `amountError` is the message the library throws when it rejects
        this amount; it words it by the reason (not a decimal value, too
        many decimals, a negative value). Nothing of the service changes. */
    method TransactionSend(to: string, amount: string, amountError: string,
                           broadcast: Result<string>, mined: Result<()>)
      returns (r: Result<string>)
      ensures wallet.None? || provider.None? ==> r == Err(WALLET_NOT_INIT)
      ensures wallet.Some? && provider.Some? && EtherUnits.ParseEther(amount).None? ==> r == Err(amountError)
      ensures wallet.Some? && wallet.value.boundTo.None? ==> r.Err?
      ensures r.Ok? <==>
        && wallet.Some? && provider.Some?
        && EtherUnits.ParseEther(amount).Some?
        && wallet.value.boundTo.Some?
        && broadcast.Ok? && mined.Ok?
      ensures r.Ok? ==> r == broadcast
    {
      if wallet.None? || provider.None? {
        return Err(WALLET_NOT_INIT);
      }
      var value := EtherUnits.ParseEther(amount);
      if value.None? {
        return Err(amountError);
      }
      if wallet.value.boundTo.None? {
        return Err(MISSING_PROVIDER);
      }
      if broadcast.Err? {
        return Err(broadcast.error);
      }
      if mined.Err? {
        return Err(mined.error);
      }
      r := Ok(broadcast.value);
    }

    /** The fee of sending `amount` to `to`: the network's `maxFeePerGas`
        times the gas limit, in wei, printed in ether. `feeData`, `estimate`
        and `priceAnswer` are the network's answers to the fee-data query,
        to gas estimation and to the price feed. Nothing of the service
        changes. */
    method EstimateGasFee(to: string, amount: string, feeData: Result<FeeData>,
                          estimate: Result<nat>, priceAnswer: Result<int>)
      returns (r: Result<FeeEstimate>)
      ensures wallet.None? || provider.None? ==> r == Err(WALLET_NOT_INIT)
      ensures wallet.Some? && provider.Some? && feeData.Err? ==> r == Err(feeData.error)
      ensures wallet.Some? && provider.Some? && feeData.Ok? && feeData.value.maxFeePerGas in {None, Some(0)}
        ==> r == Err(GAS_PRICE_UNAVAILABLE)
      ensures r.Ok? <==>
        && wallet.Some? && provider.Some?
        && feeData.Ok? && feeData.value.maxFeePerGas.Some? && feeData.value.maxFeePerGas.value > 0
        && priceAnswer.Ok?
      ensures r.Ok? ==>
        var fee := feeData.value.maxFeePerGas.value * GasLimit(EtherUnits.ParseEther(amount), estimate);
        && r.value.eth == EtherUnits.FormatEther(fee)
        && EtherUnits.ParseEther(r.value.eth) == Some(fee)
        && r.value.ethUsdAnswer == priceAnswer.value
    {
      if wallet.None? || provider.None? {
        return Err(WALLET_NOT_INIT);
      }
      if feeData.Err? {
        return Err(feeData.error);
      }
      var gasPrice := feeData.value.maxFeePerGas;
      if gasPrice.None? || gasPrice.value == 0 {
        return Err(GAS_PRICE_UNAVAILABLE);
      }
      var gasLimit: nat;
      var value := EtherUnits.ParseEther(amount);
      if value.Some? && estimate.Ok? {
        gasLimit := estimate.value;
      } else {
        gasLimit := BASE_TRANSFER_GAS;
      }
      var gasFee := gasPrice.value * gasLimit;
      EtherUnits.ParseFormatEther(gasFee);
      var gasFeeEth := EtherUnits.FormatEther(gasFee);
      var ethPrice := GetCurrETHPrice(priceAnswer);
      if ethPrice.Err? {
        return Err(ethPrice.error);
      }
      r := Ok(FeeEstimate(gasFeeEth, ethPrice.value));
    }

    /** The ETH/USD price feed's latest answer (8 decimals). Needs a provider
        and, unlike `GetWalletBalance`, does not install one. */
    method GetCurrETHPrice(priceAnswer: Result<int>) returns (r: Result<int>)
      ensures provider.None? ==> r == Err(PROVIDER_NOT_INIT)
      ensures provider.Some? ==> r == priceAnswer
    {
      if provider.None? {
        return Err(PROVIDER_NOT_INIT);
      }
      r := priceAnswer;
    }
  }
}
