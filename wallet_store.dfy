/** The Svelte wallet store: one state cell holding the address, the
    balance (ether and dollars, as text) and whether a wallet is connected,
    changed by creating or importing a wallet, refreshing the balance and
    disconnecting. The extension host's store drives the ethers wallet
    service directly; the webview's store asks the message-based service,
    whose answers are parameters here. Asynchronous steps run in order. */
module WalletStore {
  import opened Results
  import EtherUnits
  import EthersWallet

  /** The store's value. `address` is `null` until a wallet is set. */
  datatype WalletState = WalletState(address: Option<string>, balance: string,
                                     balanceUsd: string, isConnected: bool)

  /** The value the store starts with and `disconnect` restores. */
  const INITIAL := WalletState(None, "0.0", "0.00", false)

  /** `if (state.address)`: the address is present and not "". */
  predicate HasAddress(s: WalletState) {
    s.address.Some? && s.address.value != ""
  }

  /** The updater after creating or importing a wallet:
      `{...state, address, isConnected: true}`. */
  function SignedIn(s: WalletState, address: string): WalletState {
    s.(address := Some(address), isConnected := true)
  }

  /** The updater after a balance refresh: `{...s, balance, balanceUsd}`. */
  function WithBalance(s: WalletState, balance: string, balanceUsd: string): WalletState {
    s.(balance := balance, balanceUsd := balanceUsd)
  }

  /** The service's provider slot across a balance refresh: a provider
      already set is kept, otherwise the next one for the endpoint is made. */
  predicate ProviderRefreshed(before: Option<EthersWallet.Provider>, madeBefore: nat, rpc: string,
                              after: Option<EthersWallet.Provider>, madeAfter: nat)
  {
    && (before.Some? ==> after == before && madeAfter == madeBefore)
    && (before.None? ==> after == Some(EthersWallet.JsonRpcProvider(rpc, madeBefore)) && madeAfter == madeBefore + 1)
  }

  /** The states the store can be in: connected exactly when an address is
      set, and the initial value whenever it is not connected. */
  predicate Consistent(s: WalletState) {
    && s.isConnected == s.address.Some?
    && (!s.isConnected ==> s == INITIAL)
  }

  /** Signing in sets the address and the connected flag and keeps the
      balance; a refresh sets both balance fields and keeps the address and
      the flag; every transition keeps the store consistent. */
  lemma Transitions(s: WalletState, address: string, balance: string, balanceUsd: string)
    requires Consistent(s)
    ensures var t := SignedIn(s, address);
      && t.address == Some(address) && t.isConnected
      && t.balance == s.balance && t.balanceUsd == s.balanceUsd
      && Consistent(t)
    ensures var t := WithBalance(s, balance, balanceUsd);
      && t.balance == balance && t.balanceUsd == balanceUsd
      && t.address == s.address && t.isConnected == s.isConnected
      && (HasAddress(s) ==> Consistent(t))
    ensures Consistent(INITIAL)
  {
  }

  /** The extension host's store (src/store/walletStore.ts), over the
      ethers wallet service. */
  class HostStore {
    var state: WalletState
    const service: EthersWallet.WalletService
    /** `(parseFloat(balance) * price).toFixed(2)`, where the price is the
        feed's 8-decimal answer scaled down: floating point, outside the model. */
    const usdOf: (string, int) -> string

    constructor (service: EthersWallet.WalletService, usdOf: (string, int) -> string)
      ensures state == INITIAL && this.service == service && this.usdOf == usdOf
    {
      state := INITIAL;
      this.service := service;
      this.usdOf := usdOf;
    }

    /** `updateBalance`: with an address, asks the service for its balance
        (`balanceWei` is the network's answer) and the ETH price
        (`priceAnswer`, the feed's) and stores both texts; without one,
        nothing happens. Only the balance fields ever change, and only when
        both answers arrive. */
    method UpdateBalance(balanceWei: Result<nat>, priceAnswer: Result<int>) returns (r: Result<()>)
      requires Consistent(state)
      modifies this, service
      ensures Consistent(state)
      ensures state.address == old(state.address) && state.isConnected == old(state.isConnected)
      ensures service.wallet == old(service.wallet)
      ensures !HasAddress(old(state)) ==>
        && r == Ok(()) && state == old(state)
        && service.provider == old(service.provider) && service.providersMade == old(service.providersMade)
      ensures HasAddress(old(state)) ==>
        && ProviderRefreshed(old(service.provider), old(service.providersMade), service.sepoliaRpc,
                             service.provider, service.providersMade)
        && (balanceWei.Err? ==> r == Err(balanceWei.error) && state == old(state))
        && (balanceWei.Ok? && priceAnswer.Err? ==> r == Err(priceAnswer.error) && state == old(state))
        && (balanceWei.Ok? && priceAnswer.Ok? ==>
              var balance := EtherUnits.FormatEther(balanceWei.value);
              && r == Ok(())
              && state == WithBalance(old(state), balance, usdOf(balance, priceAnswer.value))
              && EtherUnits.ParseEther(state.balance) == Some(balanceWei.value))
    {
      if !HasAddress(state) {
        return Ok(());
      }
      var balance := service.GetWalletBalance(state.address.value, balanceWei);
      if balance.Err? {
        return Err(balance.error);
      }
      var ethPrice := service.GetCurrETHPrice(priceAnswer);
      if ethPrice.Err? {
        return Err(ethPrice.error);
      }
      state := WithBalance(state, balance.value, usdOf(balance.value, ethPrice.value));
      r := Ok(());
    }

    /** `createWallet(name)`: the service makes a random wallet (`random`
        is the key the library generated); the store records its address as
        connected, then refreshes the balance. The service's result comes
        back unchanged; a failed refresh is reported but the address stays
        set. `name` is not used. */
    method CreateWallet(name: string, random: EthersWallet.Keys,
                        balanceWei: Result<nat>, priceAnswer: Result<int>)
      returns (r: Result<EthersWallet.Created>)
      requires Consistent(state)
      modifies this, service
      ensures Consistent(state)
      ensures service.wallet == Some(EthersWallet.Signer(random, None))
      ensures state.address == Some(random.address) && state.isConnected
      ensures r.Ok? ==> r.value == EthersWallet.Created(random.address, random.phrase, random.privateKey)
      ensures r.Err? <==> random.address != "" && (balanceWei.Err? || priceAnswer.Err?)
      ensures r.Err? ==>
        && state == SignedIn(old(state), random.address)
        && r.error == (if balanceWei.Err? then balanceWei.error else priceAnswer.error)
      ensures random.address == "" ==>
        && state == SignedIn(old(state), "")
        && service.provider == old(service.provider) && service.providersMade == old(service.providersMade)
      ensures random.address != "" ==>
        ProviderRefreshed(old(service.provider), old(service.providersMade), service.sepoliaRpc,
                          service.provider, service.providersMade)
      ensures random.address != "" && balanceWei.Ok? && priceAnswer.Ok? ==>
        var balance := EtherUnits.FormatEther(balanceWei.value);
        state == WithBalance(SignedIn(old(state), random.address), balance, usdOf(balance, priceAnswer.value))
    {
      var result := service.WalletCreate(random);
      state := SignedIn(state, result.address);
      var refreshed := UpdateBalance(balanceWei, priceAnswer);
      if refreshed.Err? {
        return Err(refreshed.error);
      }
      r := Ok(result);
    }

    /** `connectWallet(phrase)`: the service imports the wallet the phrase
        derives; the store records its address as connected and refreshes
        the balance. An invalid phrase throws before the store changes. */
    method ConnectWallet(phrase: string, balanceWei: Result<nat>, priceAnswer: Result<int>)
      returns (r: Result<()>)
      requires Consistent(state)
      modifies this, service
      ensures Consistent(state)
      ensures service.fromPhrase(phrase).Err? ==>
        && r == Err(service.fromPhrase(phrase).error) && state == old(state)
        && service.wallet == old(service.wallet)
        && service.provider == old(service.provider) && service.providersMade == old(service.providersMade)
      ensures service.fromPhrase(phrase).Ok? ==>
        var address := service.fromPhrase(phrase).value.address;
        && state.address == Some(address)
        && state.isConnected
        && service.wallet == Some(EthersWallet.Signer(service.fromPhrase(phrase).value, old(service.provider)))
        && (r.Err? <==> address != "" && (balanceWei.Err? || priceAnswer.Err?))
        && (r.Err? ==>
              && state == SignedIn(old(state), address)
              && r.error == (if balanceWei.Err? then balanceWei.error else priceAnswer.error))
        && (address == "" ==>
              && state == SignedIn(old(state), "")
              && service.provider == old(service.provider) && service.providersMade == old(service.providersMade))
        && (address != "" ==>
              ProviderRefreshed(old(service.provider), old(service.providersMade), service.sepoliaRpc,
                                service.provider, service.providersMade))
        && (address != "" && balanceWei.Ok? && priceAnswer.Ok? ==>
              var balance := EtherUnits.FormatEther(balanceWei.value);
              state == WithBalance(SignedIn(old(state), address), balance, usdOf(balance, priceAnswer.value)))
    {
      var address := service.WalletConnect(phrase);
      if address.Err? {
        return Err(address.error);
      }
      state := SignedIn(state, address.value);
      r := UpdateBalance(balanceWei, priceAnswer);
    }

    /** `disconnect`: back to the initial value, from any state. */
    method Disconnect()
      modifies this
      ensures state == INITIAL
    {
      state := INITIAL;
    }
  }

  /** The webview's store (src/webview-ui/vswallet/src/walletStore.ts): the
      same cell and updaters, over the message-based service; each argument
      named after a service call is the outcome of that request. */
  class WebviewStore {
    var state: WalletState
    /** `(parseFloat(balance) * ethPrice).toFixed(2)`: floating point,
        outside the model. */
    const usdOf: (string, real) -> string

    constructor (usdOf: (string, real) -> string)
      ensures state == INITIAL && this.usdOf == usdOf
    {
      state := INITIAL;
      this.usdOf := usdOf;
    }

    /** `updateBalance`: with an address, stores the balance and its dollar
        value once both requests succeed; otherwise nothing changes. */
    method UpdateBalance(getWalletBalance: Result<string>, getCurrETHPrice: Result<real>)
      returns (r: Result<()>)
      requires Consistent(state)
      modifies this
      ensures Consistent(state)
      ensures state.address == old(state.address) && state.isConnected == old(state.isConnected)
      ensures !HasAddress(old(state)) ==> r == Ok(()) && state == old(state)
      ensures HasAddress(old(state)) ==>
        && (getWalletBalance.Err? ==> r == Err(getWalletBalance.error) && state == old(state))
        && (getWalletBalance.Ok? && getCurrETHPrice.Err? ==>
              r == Err(getCurrETHPrice.error) && state == old(state))
        && (getWalletBalance.Ok? && getCurrETHPrice.Ok? ==>
              && r == Ok(())
              && state == WithBalance(old(state), getWalletBalance.value,
                                      usdOf(getWalletBalance.value, getCurrETHPrice.value)))
    {
      if !HasAddress(state) {
        return Ok(());
      }
      if getWalletBalance.Err? {
        return Err(getWalletBalance.error);
      }
      if getCurrETHPrice.Err? {
        return Err(getCurrETHPrice.error);
      }
      var balance := getWalletBalance.value;
      state := WithBalance(state, balance, usdOf(balance, getCurrETHPrice.value));
      r := Ok(());
    }

    /** `createWallet(name)`: when the host created a wallet, its address
        is recorded as connected and the balance refreshed; the host's
        result is returned as it came. A failed request leaves the store
        as it was; a failed refresh leaves the address set. */
    method CreateWallet(name: string, walletCreate: Result<EthersWallet.Created>,
                        getWalletBalance: Result<string>, getCurrETHPrice: Result<real>)
      returns (r: Result<EthersWallet.Created>)
      requires Consistent(state)
      modifies this
      ensures Consistent(state)
      ensures walletCreate.Err? ==> r == Err(walletCreate.error) && state == old(state)
      ensures walletCreate.Ok? ==>
        && state.address == Some(walletCreate.value.address) && state.isConnected
        && (r.Ok? ==> r == walletCreate)
        && (r.Err? <==> walletCreate.value.address != "" && (getWalletBalance.Err? || getCurrETHPrice.Err?))
        && (r.Err? ==>
              && state == SignedIn(old(state), walletCreate.value.address)
              && r.error == (if getWalletBalance.Err? then getWalletBalance.error else getCurrETHPrice.error))
        && (walletCreate.value.address == "" ==> state == SignedIn(old(state), ""))
        && (walletCreate.value.address != "" && getWalletBalance.Ok? && getCurrETHPrice.Ok? ==>
              state == WithBalance(SignedIn(old(state), walletCreate.value.address), getWalletBalance.value,
                                   usdOf(getWalletBalance.value, getCurrETHPrice.value)))
    {
      if walletCreate.Err? {
        return Err(walletCreate.error);
      }
      var result := walletCreate.value;
      state := SignedIn(state, result.address);
      var refreshed := UpdateBalance(getWalletBalance, getCurrETHPrice);
      if refreshed.Err? {
        return Err(refreshed.error);
      }
      r := Ok(result);
    }

    /** `connectWallet(phrase)`: the host's answer is the imported
        wallet's address, recorded as connected before the balance refresh. */
    method ConnectWallet(phrase: string, walletConnect: Result<string>,
                         getWalletBalance: Result<string>, getCurrETHPrice: Result<real>)
      returns (r: Result<()>)
      requires Consistent(state)
      modifies this
      ensures Consistent(state)
      ensures walletConnect.Err? ==> r == Err(walletConnect.error) && state == old(state)
      ensures walletConnect.Ok? ==>
        && state.address == Some(walletConnect.value) && state.isConnected
        && (r.Err? <==> walletConnect.value != "" && (getWalletBalance.Err? || getCurrETHPrice.Err?))
        && (r.Err? ==>
              && state == SignedIn(old(state), walletConnect.value)
              && r.error == (if getWalletBalance.Err? then getWalletBalance.error else getCurrETHPrice.error))
        && (walletConnect.value == "" ==> state == SignedIn(old(state), ""))
        && (walletConnect.value != "" && getWalletBalance.Ok? && getCurrETHPrice.Ok? ==>
              state == WithBalance(SignedIn(old(state), walletConnect.value), getWalletBalance.value,
                                   usdOf(getWalletBalance.value, getCurrETHPrice.value)))
    {
      if walletConnect.Err? {
        return Err(walletConnect.error);
      }
      state := SignedIn(state, walletConnect.value);
      r := UpdateBalance(getWalletBalance, getCurrETHPrice);
    }

    /** `disconnect`: back to the initial value, from any state. */
    method Disconnect()
      modifies this
      ensures state == INITIAL
    {
      state := INITIAL;
    }
  }
}
