# zkUID wallet helpers in Dafny

zkUID is a single-page web application that shows a "Universal ID" flow: a
user connects a browser wallet, registers a profile and runs a mock
zero-knowledge proof. Almost all of it is presentation code, mocked back-end
calls and wallet-provider I/O. Its one self-contained piece of logic is in the
wallet helpers of `src/utils/wallet.js`. `shortenAddress` turns an account
address into a short display form such as `0x1234...9abc`. `disconnectWallet`
returns null and has no effect; nothing in the repository calls it.

This project models those two helpers and the JavaScript string semantics
they depend on. It also models the places where the navigation bar and the
dashboard show the result.

- `js_string.dfy`, module `JsString`: `String.prototype.substring` with its
  clamping rules. Both indices are clamped into `0..length`, and they are
  swapped when the start ends up after the end. The one-argument form
  `substring(start)` is `substring(start, length)`.
- `wallet.dfy`, module `Wallet`: `ShortenAddress` and `DisconnectWallet`.
  The specification functions `Head` and `Tail` give the first min(6, n) and
  the last min(4, n) characters. The lemmas cover the short form's length,
  its three parts, what happens with short inputs, when two inputs give the
  same short form, and what it looks like for a 42-character `0x` account
  address.
- `display.dfy`, module `WalletDisplay`: the wallet labels of the navigation
  bar and the dashboard.

An input that JavaScript treats as falsy (`null`, `undefined` or `""`) is
`None` or `Some("")` of an `Option<string>`. `shortenAddress` validates
nothing and has no precondition, so `ShortenAddress` is total.

## Model

| member | source | states |
|---|---|---|
| JsString.Substring | src/utils/wallet.js:22 | the result is never longer than the input; in range it is the plain slice; an end past the length is clamped to the length; a negative start is clamped to 0 |
| JsString.SubstringFrom | src/utils/wallet.js:22 | `s.substring(start)` is a suffix of `s` whose length is the length minus the clamped start |
| JsString.SubstringFromLast | src/utils/wallet.js:22 | `s.substring(s.length - k)` is the last min(k, n) characters, and the whole string when it is shorter than k |
| JsString.SubstringPrefix | src/pages/Dashboard.tsx:112 | `s.substring(0, k)` is the first min(k, n) characters, as in the dashboard's `uid.substring(0, 20)` here and `txHash.substring(0, 10)` at line 175 |
| Wallet.ShortenAddress | src/utils/wallet.js:20-23 | a falsy input gives ""; any other input gives its first min(6, n) characters, then "...", then its last min(4, n) characters, for every string with no validation |
| Wallet.ShortenEmptyIff | src/utils/wallet.js:21 | the short form is "" if and only if the input is absent or empty |
| Wallet.ShortenLength | src/utils/wallet.js:22 | for a non-empty input the short form has length min(6, n) + 3 + min(4, n), which is 13 whenever n is at least 10 |
| Wallet.ShortenParts | src/utils/wallet.js:22 | the short form begins with the input's first min(6, n) characters, the next three characters are "...", and it ends with the input's last min(4, n) characters |
| Wallet.ShortenVeryShort | src/utils/wallet.js:22 | below four characters the suffix start is negative and clamped to 0, so the whole input follows the ellipsis |
| Wallet.ShortenOverlap | src/utils/wallet.js:22 | the front and back cuts overlap (the short form repeats input characters) exactly when the input is shorter than ten characters |
| Wallet.ShortenAt | src/utils/wallet.js:22 | each position of the short form is an input character at a stated index or a dot of the ellipsis |
| Wallet.ShortenSameIff | src/utils/wallet.js:22 | two non-empty inputs have the same short form if and only if their first min(6, n) and last min(4, n) characters agree |
| Wallet.ShortenOfAddress | src/utils/wallet.js:22 | for a 42-character `0x` hex address the short form is the first six characters, "..." and the last four: 13 characters, starting with "0x", with hex digits around the ellipsis |
| Wallet.ShortenCollides | src/utils/wallet.js:22 | two different well-formed `0x` hex addresses can have the same short form |
| Wallet.DisconnectWallet | src/utils/wallet.js:34-37 | the result is null (`None`), which is falsy and shortens to "" |
| Wallet.AfterDisconnect | src/utils/wallet.js:34-37 | a caller that stored the result of disconnectWallet would hold null whatever it held before |
| Wallet.DisconnectIdempotent | src/utils/wallet.js:34-37 | disconnecting ignores the prior state, and disconnecting twice is the same as disconnecting once |
| WalletDisplay.NavbarWalletLabel | src/components/Navbar.tsx:85-95 | a connected wallet is shown by its short form, and the label is never longer than 14 characters |
| WalletDisplay.NavbarLabelUnambiguous | src/components/Navbar.tsx:85-95 | the navigation bar shows "Connect Wallet" if and only if no wallet address is held |
| WalletDisplay.DashboardWalletLabel | src/pages/Dashboard.tsx:98 | a connected wallet is shown by its short form, and the label is never longer than 13 characters |
| WalletDisplay.DashboardLabelUnambiguous | src/pages/Dashboard.tsx:98 | the dashboard shows "Not connected" if and only if no wallet address is held, because no short form reads "Not connected" |
| WalletDisplay.LabelsAfterDisconnect | src/utils/wallet.js:34-37 | were a caller to store the result of disconnectWallet, both labels would fall back to their prompts |

## Left out

- `connectWallet` (src/utils/wallet.js:3-18) and `getBalance` (src/utils/wallet.js:25-32) call the injected wallet provider through the ethers library. That is asynchronous foreign I/O, and `formatEther` does the balance formatting.
- src/utils/api.js is an HTTP client for an endpoint that has no server in the repository. It is network I/O.
- The pages (Register, Verify, Dashboard, Home) drive UI flags with timers and random mock outcomes. They are not modelled beyond the wallet labels and the dashboard's prefix cuts.
- Wallet.AfterDisconnect: models a caller that stores `disconnectWallet`'s result as its wallet state. No such caller exists in the repository; the navigation bar and the dashboard set their address only from the provider's accounts or from `connectWallet`, and offer no way to disconnect.
- WalletDisplay.LabelsAfterDisconnect: states the labels that such a hypothetical caller would show; the application itself never reaches this state after a connection.
- The navigation bar's start-up account query, routing, clipboard and toast notifications are side effects and are not modelled.
- JavaScript strings are sequences of UTF-16 code units and `substring` indexes code units. The model indexes characters. The two agree on account addresses, which are ASCII, but a cut could split a surrogate pair in the source and not in the model.
- `substring` converts non-integer, NaN and infinite arguments to integers first. The helpers only pass integers, so the model takes `int` indices.
- A truthy non-string input, which would make `substring` throw or behave differently in JavaScript, is not modelled. Every caller passes a string or `null`.
