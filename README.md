# VSWallet core, modelled in Dafny

VSWallet is a noncustodial Ethereum wallet that lives in the editor's sidebar.
This project models the parts of it that hold logic:

- **The extension host's wallet service** (`EthersWallet`, ethers_wallet.dfy).
  - It is a signing session with two slots: the JSON-RPC `provider` and the signer `wallet`.
  - Operations create a random wallet, import one from a mnemonic, install a provider (lazily for balance queries) and read balances.
  - Sends and fee estimates are guarded on both slots.
  - The fee is computed exactly: `maxFeePerGas × gasLimit` wei.
    - A missing or zero fee figure is an error.
    - A failed gas estimate falls back to 21000, the base transaction cost (G_transaction, appendix G of the Ethereum yellow paper).
  - Amounts use ethers' 18-decimal ether text (`EtherUnits`, ether_units.dfy, over the digit strings of `Decimal`, decimal.dfy). Printing a wei amount and parsing it back gives the same amount.
- **The sidebar webview's page** (`Sidebar`, sidebar.dfy). The built `index.html` goes through four rewrites, in order:
  1. asset paths point at the webview URI;
  2. `<base href="/">` tags are deleted;
  3. a Content-Security-Policy meta tag goes after the first `<head>`, unless the page already has one;
  4. every `<script` gets the nonce attribute.

  The nonce comes from a loop that draws 32 characters from A–Z, a–z and 0–9.
- **The webview's message-based wallet service** (`WebviewService`, webview_service.dfy).
  - Each public method posts its own command name and argument object to the host.
  - It waits in a table of pending callbacks keyed by command. A later request for the same command overwrites the entry.
  - The message listener runs the callback of the reply's command once and then deletes it.
  - A truthy `error` rejects the request; otherwise the reply's `data` resolves it.
- **The Svelte wallet store** (`WalletStore`, wallet_store.dfy). It has one state cell: address, balance, dollar balance and connected flag.
  - Its transitions are create, import, balance refresh and disconnect.
  - There are two copies of it:
    - the host's copy (`HostStore`) drives the ethers wallet service;
    - the webview's copy (`WebviewStore`) receives the message service's answers.
  - The record updaters are shared.

The async code runs as sequential steps. Random key generation, mnemonic
derivation, the network's answers, `Math.random`, `Date.now()`, the file
read and the webview URIs are all outside the model. Each becomes a
parameter (or, for mnemonic derivation and dollar formatting, a function
fixed when the object is built). The model follows the code, except where
"## Left out" says otherwise. Wallet
registries, active-wallet flags, a secret store, a transaction monitor and
a price-change cache are described for the wider system, but no code in
these files implements them.

## Model

| member | source | states |
|---|---|---|
| EthersWallet.EnvOr | src/ethers/walletService.ts:23 | `process.env.X \|\| fallback`: the variable when set and non-empty, otherwise the fallback |
| EthersWallet.WalletService.constructor | src/ethers/walletService.ts:21-23 | both slots start empty; the RPC URL is `SEPOLIA_RPC` or the public Sepolia endpoint |
| EthersWallet.WalletService.InitializeProvider | src/ethers/walletService.ts:27-31 | always installs a new provider for the Sepolia URL, replacing any earlier one; the wallet slot is untouched |
| EthersWallet.WalletService.WalletCreate | src/ethers/walletService.ts:35-44 | replaces the wallet with the generated one, unbound to any provider; the provider is untouched; returns exactly its address, phrase and private key |
| EthersWallet.WalletService.WalletConnect | src/ethers/walletService.ts:47-53 | replaces the wallet with the phrase-derived one, bound to the provider if and only if one is set, and returns its address; an invalid phrase throws and changes nothing |
| EthersWallet.WalletService.GetWalletBalance | src/ethers/walletService.ts:56-62 | installs a provider only when none is set, never touches the wallet, leaves a provider set; the balance text is the 18-decimal rendering of the wei answer and parses back to it |
| EthersWallet.WalletService.TransactionSend | src/ethers/walletService.ts:66-74 | "Wallet not init" whenever either slot is empty; with both set, an amount `parseEther` rejects fails with the library's own message; succeeds if and only if both slots are set, the amount parses, the signer is bound, and broadcast and mining succeed; the result is the hash; no state changes |
| EthersWallet.GasLimit | src/ethers/walletService.ts:102-110 | the network's estimate when the amount parses and estimation succeeds, exactly 21000 otherwise |
| EthersWallet.WalletService.EstimateGasFee | src/ethers/walletService.ts:90-121 | "Wallet not init" when either slot is empty; "Unable to fetch gas price" when `maxFeePerGas` is absent or zero, whatever the estimate; otherwise the ether text is exactly `maxFeePerGas × gasLimit` wei and parses back to it |
| EthersWallet.WalletService.GetCurrETHPrice | src/ethers/walletService.ts:124-155 | "Provider not initialized" when no provider is set (none is installed); otherwise the feed's answer |
| EtherUnits.FormatEther | src/ethers/walletService.ts:61 | `formatEther`: the whole ethers, a point and the 18-digit fraction without trailing zeros (at least one digit); the text always holds a point |
| EtherUnits.ParseEther | src/ethers/walletService.ts:71 | `parseEther`: an optional '-', then digits, an optional point and digits, at least one digit; fraction digits beyond the 18th must be zeros, otherwise no amount; a leading '-' gives zero when the rest reads as zero and no amount otherwise; an amount comes only from non-empty text |
| EtherUnits.NegativeZero | src/ethers/walletService.ts:71 | "-0" reads as zero wei, while "-1" gives no amount |
| EtherUnits.ParseFormatEther | src/ethers/walletService.ts:112-113 | `parseEther(formatEther(wei)) == wei` for every amount: the 18-decimal text loses nothing |
| EtherUnits.FormatEtherUnsigned | src/ethers/walletService.ts:61 | the printed text starts with a digit, never a sign |
| Sidebar.RewriteAssets | src/sidebar.ts:110-117 | one left-to-right scan: each `href="/assets/` or `src="/assets/` becomes the attribute, `="`, the URI and `/`, the scan resuming after the match; other characters are copied (its properties are the three lemmas below) |
| Sidebar.RewriteAssetsLength | src/sidebar.ts:110-117 | the rewritten page is longer than the original by the number of matches times the difference between the URI's length and that of `/assets` |
| Sidebar.RewriteAssetsToSelf | src/sidebar.ts:110-117 | with `/assets` as the URI the rewrite gives back the page itself |
| Sidebar.RewriteAssetsMatch | src/sidebar.ts:110-117 | for any URI, a leading `href="/assets/` or `src="/assets/` becomes that attribute, `="`, the URI and `/`, and the scan continues right after the matched text |
| Sidebar.RewriteAssetsCopiesText | src/sidebar.ts:110-117 | for any URI, text in which no position starts a match is copied unchanged and the rest is rewritten after it |
| Sidebar.NoAssetRefs | src/sidebar.ts:110-117 | the rewrite replaces nothing exactly when no position starts a match, and then the page is unchanged |
| Sidebar.RemoveBaseTags | src/sidebar.ts:120-123 | one left-to-right scan deleting every `<base href="/"`, `\s*`, `/?`, `>` match and copying everything else (its properties are the four lemmas below) |
| Sidebar.RemoveBaseTagsCopiesText | src/sidebar.ts:120-123 | text in which no position starts a tag is copied unchanged, and the rest is processed after it |
| Sidebar.BaseTagDeleted | src/sidebar.ts:120-123 | `<base href="/"`, any `\s` run, an optional `/` and `>` is deleted and the scan resumes right after it |
| Sidebar.NoBaseTagUnchanged | src/sidebar.ts:120-123 | a page without `<base href="/"` is left as it is |
| Sidebar.RemoveBaseTagsShorter | src/sidebar.ts:120-123 | deleting tags never lengthens the page |
| Sidebar.AddCspMeta | src/sidebar.ts:127-130 | the identity when the CSP marker is present or there is no `<head>`; otherwise the tag is inserted right after the first `<head>` only |
| Sidebar.StampNonce | src/sidebar.ts:133-136 | one left-to-right scan putting ` nonce="N"` after every `<script` and copying everything else (its properties are the lemmas below) |
| Sidebar.StampNonceCopiesText | src/sidebar.ts:133-136 | text in which no position starts `<script` is copied unchanged, and the rest is stamped after it |
| Sidebar.ScriptAtIsOccurrence | src/sidebar.ts:133-136 | the character-by-character test for the start of a script tag holds exactly where `<script` occurs |
| Sidebar.StampKeepsScriptCount | src/sidebar.ts:133-136 | stamping preserves the number of `<script` occurrences |
| Sidebar.StampedScriptsCarryNonce | src/sidebar.ts:133-136 | after stamping, every `<script` is followed by ` nonce="N"` |
| Sidebar.StampedCspPresent | src/sidebar.ts:127-136 | a CSP tag inserted after `<head>` survives the nonce stamping unchanged |
| Sidebar.HtmlContent | src/sidebar.ts:97-139 | the four rewrites in the order of the source: asset paths, base tags, CSP meta tag, script nonces (its property is `HtmlContentNonce`) |
| Sidebar.HtmlContentNonce | src/sidebar.ts:97-139 | the served page stamps every script with N and, when the CSP step inserted a tag, contains the policy whose script source is `'nonce-N'` |
| Sidebar.NonceCharFor | src/sidebar.ts:147 | `possible.charAt(Math.floor(r * 62))` is an alphabet character for every draw in [0, 1) |
| Sidebar.GetNonce | src/sidebar.ts:142-150 | exactly 32 characters, the i-th chosen by the i-th draw, all from A–Z, a–z, 0–9 |
| WebviewService.Command | src/webview-ui/vswallet/src/walletService.ts:49-75 | each public method sends its own name as the command |
| WebviewService.Payload | src/webview-ui/vswallet/src/walletService.ts:49-75 | the argument object `{phrase}`, `{address}` or `{to, amount}`, and no data for `walletCreate` and `getCurrETHPrice` |
| WebviewService.CommandsDistinguishCalls | src/webview-ui/vswallet/src/walletService.ts:49-75 | two calls share a command if and only if they are to the same method; command and payload together determine the call |
| WebviewService.MessageId | src/webview-ui/vswallet/src/walletService.ts:31 | the id is the command, a dash and the decimal clock reading, which reads back as the clock |
| WebviewService.MessageIdDistinct | src/webview-ui/vswallet/src/walletService.ts:31 | for one command, ids are equal if and only if the clock readings are |
| WebviewService.Settle | src/webview-ui/vswallet/src/walletService.ts:33-39 | rejects with the error if and only if it is present and non-empty, otherwise resolves with `data` |
| WebviewService.WalletService.constructor | src/webview-ui/vswallet/src/walletService.ts:15-27 | the callback table starts empty |
| WebviewService.WalletService.SendMessage | src/webview-ui/vswallet/src/walletService.ts:29-47 | registers the new request under the command (last registration wins, the overwritten request is orphaned), posts `{command, messageId, data}`, keeps the invariant that a waiting request is unsettled |
| WebviewService.WalletService.OnMessage | src/webview-ui/vswallet/src/walletService.ts:19-25 | a reply with a waiting entry settles that request exactly once and removes only that entry; a reply without one changes nothing |
| WebviewService.WalletService.Invoke | src/webview-ui/vswallet/src/walletService.ts:49-75 | each public method posts its own command name with its argument object |
| WalletStore.SignedIn | src/store/walletStore.ts:28-32 | `{...state, address, isConnected: true}` (its properties are in `Transitions`) |
| WalletStore.WithBalance | src/store/walletStore.ts:65-69 | `{...s, balance, balanceUsd}` (its properties are in `Transitions`) |
| WalletStore.Transitions | src/store/walletStore.ts:28-69 | signing in sets address and connected flag and keeps the balances; a refresh sets only the balances; all transitions keep the store consistent |
| WalletStore.HostStore.constructor | src/store/walletStore.ts:14-19 | the initial state is address null, balance "0.0", dollars "0.00", not connected |
| WalletStore.HostStore.UpdateBalance | src/store/walletStore.ts:52-71 | without a non-empty address nothing changes, in the store or the service; with one, a provider already set is kept and otherwise the next one is installed, the wallet is kept, only the two balance fields change and only when both answers arrive, and the stored balance parses back to the wei answer |
| WalletStore.HostStore.CreateWallet | src/store/walletStore.ts:25-36 | the whole new state of store and service: the created wallet, unbound; signed in with its address, then refreshed; an empty address skips the refresh and keeps the provider, otherwise a set provider is kept or the next one installed; both answers present give `WithBalance` of the signed-in state with the printed balance; a failed refresh fails with that answer's error and leaves only the sign-in; the service's result is returned unchanged; `name` has no effect |
| WalletStore.HostStore.ConnectWallet | src/store/walletStore.ts:39-49 | an invalid phrase fails and changes nothing in the store or the service; otherwise the signer is the derived one bound to the provider held before the call, the store is signed in with its address and refreshed (provider kept or installed as in `UpdateBalance`, untouched for an empty address), fails exactly when the address is non-empty and an answer failed, and the new state is given in every case |
| WalletStore.HostStore.Disconnect | src/store/walletStore.ts:74-81 | restores exactly the initial state from any state, so repeating it changes nothing |
| WalletStore.WebviewStore.constructor | src/webview-ui/vswallet/src/walletStore.ts:13-18 | the same initial state |
| WalletStore.WebviewStore.UpdateBalance | src/webview-ui/vswallet/src/walletStore.ts:48-67 | no-op without a non-empty address; otherwise only the balance fields change, once both answers arrive |
| WalletStore.WebviewStore.CreateWallet | src/webview-ui/vswallet/src/walletStore.ts:23-34 | a failed request leaves the store unchanged; otherwise signed in with the host's address and refreshed, the new state given in every case (balance text and dollar value when both answers arrive); the answer is returned unchanged; `name` is unused |
| WalletStore.WebviewStore.ConnectWallet | src/webview-ui/vswallet/src/walletStore.ts:36-46 | a failed request leaves the store unchanged; otherwise signed in with the returned address and refreshed; fails exactly when the address is non-empty and an answer failed; the new state is given in every case |
| WalletStore.WebviewStore.Disconnect | src/webview-ui/vswallet/src/walletStore.ts:69-76 | restores the initial state exactly, so repeating it changes nothing |

## Left out

- The Etherscan history fetch (`walletTransactHistory`, src/ethers/walletService.ts:77-87) is HTTP I/O. The webview's request for it is modelled as one more command.
- The ethers library is not modelled: random key generation, mnemonic derivation, signing, broadcasting, `tx.wait()`, the JSON-RPC provider and the Chainlink contract call. Their results are parameters, or the `fromPhrase` function fixed at construction.
- `ETH_RPC` and `ETHERSCAN_API_KEY` are read by the service but never used by the modelled operations.
- EthersWallet.WalletService.GetCurrETHPrice: returns the feed's raw 8-decimal integer answer rather than `Number(answer) / 1e8`, because floating point is outside the model.
- EthersWallet.WalletService.EstimateGasFee: the dollar figure `(parseFloat(eth) * price).toFixed(2)` is floating point. The result carries the raw price answer instead.
- WalletStore.HostStore.UpdateBalance: `balanceUsd` comes from the `usdOf` function given at construction. The float arithmetic and `toFixed(2)` are not modelled.
- WalletStore.WebviewStore.UpdateBalance: the same; its `usdOf` takes the price the host sent.
- EthersWallet.WalletService.TransactionSend: the text of the library's error for a rejected amount ("invalid FixedNumber string value", "too many decimals for format", with ethers' suffix) is an input, not fixed by the model.
- EtherUnits.ParseEther: a negative non-zero amount ("-1.5") gives no amount, because wei are `nat` here. ethers parses it to a negative bigint. The send of a negative value is then refused by the library, and the gas estimate falls back to 21000, so the program's observable outcome is the same. Negative zero reads as zero, as in ethers.
- Sidebar.AddCspMeta: `String.replace` with a string replacement would interpret `$` sequences in the CSP source. The model inserts the text literally. The nonce cannot contain `$`.
- The file read, `asWebviewUri`, the CSP source, `resolveWebviewView`'s option wiring (src/sidebar.ts:80-95) and `Math.random` are host calls. Their values are parameters.
- The commented-out first draft at src/sidebar.ts:1-59 is dead code.
- `window.addEventListener`, `vscode.postMessage` and `Date.now()` are transport and clock. Posted messages are a sequence field, and the clock is a parameter.
- The webview store's requests to the host are not driven through `WebviewService.WalletService`. Their settled outcomes are parameters, because the reply payloads are untyped `any`.
- Promise scheduling is not modelled: each operation runs to completion in order, and which reply arrives when is outside the model. A request whose callback was overwritten stays unsettled, and the model records this as an orphaned request.
- WalletStore.HostStore.UpdateBalance: the snapshot at src/store/walletStore.ts:53-58 does not work as written. The subscriber calls `unsubscribe()` before `const unsubscribe = subscribe(...)` has returned. Svelte runs the subscriber synchronously, so the call throws a ReferenceError and the snapshot promise rejects. Every `updateBalance` therefore rejects, and so do `createWallet` and `connectWallet` after they sign in. The model reads the current state, as the code evidently intends.
- WalletStore.WebviewStore.UpdateBalance: the same snapshot, at src/webview-ui/vswallet/src/walletStore.ts:49-54, with the same effect as written and the same reading in the model.
- src/extension.ts (command and view registration) and the build configuration are glue.
