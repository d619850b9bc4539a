# CryptoBalance forensic scanner — a Dafny model

CryptoBalance is a single-page Streamlit tool (`app.py`). An investigator
picks a coin and supplies a wallet address, either typed or read from a QR
code in an uploaded picture or a camera snapshot. The tool then looks up the
wallet's balance and the coin's USD price and shows the total, with a PDF
report.

This project models the page's logic and proves properties about it:

- **`decode_qr`** (module `QrDecoder`). The QR decoder tries four stages in
  order: the decoded image, a grayscale copy, an Otsu-binarised copy, and a
  half-size copy. The first non-empty payload wins. Any exception turns the
  whole call into `None`.
- **`get_price` and `get_balance`** (module `Balances`):
  - the coin-id table and the price lookup;
  - the substring dispatch over the coin label;
  - the Ethereum address shape check and its `-1` sentinel;
  - the fallback over three Ethereum nodes, with `int(result, 16)` modelled
    in module `HexInt`;
  - the choice of the `trx` entry in a Tron account;
  - the single-request Bitcoin and Blockcypher branches.
- **The page** (module `Scan`):
  - the investigator placeholders (`Guest`, `N/A`) and the sidebar greeting;
  - how the scan button sorts its result: missing address, invalid format,
    connection error, or a valued result with the report's scan data;
  - the session's `wallet_address`, as a class `Session`. A decoded QR code,
    typing and the clear button are its methods.
- **Helpers** (module `Text`): Python's whitespace class, `str.strip()` and
  the substring test `in`.

Modelling choices:

- **Foreign calls become inputs.** Every call into OpenCV, HTTP, JSON decoding
  or `float()` is an input of type `Raw<T>`: it either raised or returned a
  value.
  - A `Capture` holds what the image calls yield for one `decode_qr` call.
  - A `Network` holds what each balance service replies for the address.
  - Price replies are passed as `Raw<Quote>`.
- **Balances are exact.** A balance is returned in the unit the service
  reports (satoshi, wei or sun). The division by the unit size is exact
  (`Balances.Coins`). It is used only where the page uses the number: the
  `balance == -1` test and the total.
- **The sentinel can collide.** A reported amount of exactly minus one coin is
  read as the sentinel too. `Scan.InvalidFormatCases` states this.

Two points about `decode_qr` that the stage list alone does not show:

- One `try` block wraps all four stages (`app.py:25-55`). An exception in
  any stage therefore ends the call with `None`; it does not move on to the
  next stage.
- When `imdecode` gives `None` for an undecodable buffer, the first detector
  call raises. The call then returns `None`, the same value as a picture
  without a code.

The session is modelled as Streamlit runs the page. Each click or edit runs
`app.py` again from the top: first the button's callback or the entry's
update, then the initialisation, then both image tabs, then the scan.
A picture still held by an image tab is decoded again on every run. Its
payload therefore overrides a click on the clear button or a typed address
(`Scan.DecodedImageOverrides`, `Scan.ClearThenScan`).

## Model

| member | source | states |
|---|---|---|
| `QrDecoder.DecodeQr` | app.py:20-55 | A returned payload is never empty. An unreadable buffer or an image that cannot be decoded gives `None`. |
| `QrDecoder.Truthy` | app.py:34-51 | Python truthiness of the detector's data, as in `if data:` and `if qr_data:`: present and non-empty. |
| `QrDecoder.FirstPayload` | app.py:32-51 | Reference definition: an ordered list of stages run by early return, stopping at the first payload or the first exception (stated by `QrDecoder.FirstPayloadWins` and `QrDecoder.FirstPayloadNone`). |
| `QrDecoder.StagesRun` | app.py:27-51 | The stages `decode_qr` enters, in order: none when the buffer cannot be read, only the first when `imdecode` gives `None`, otherwise the stages up to the one that stops the chain (stated by `QrDecoder.DecodeQrFirstStageWins` and `QrDecoder.DecodeQrNone`). |
| `QrDecoder.DecodeQrIsFirstPayload` | app.py:25-53 | For a decoded image, the chain of early returns equals the ordered first-payload iteration over the four stages. |
| `QrDecoder.FirstPayloadWins` | app.py:32-51 | The iteration returns `p` exactly when some stage returned the non-empty `p` and every earlier stage ran and found nothing. |
| `QrDecoder.FirstPayloadNone` | app.py:32-55 | The iteration returns `None` exactly when every stage found nothing, or some stage raised before any payload. |
| `QrDecoder.Attempts` | app.py:32-51 | No more detector calls run than there are stages (at most four). |
| `QrDecoder.AttemptsStopAt` | app.py:32-51 | When stage `k` succeeds or raises after `k` empty stages, exactly `k + 1` stages run. |
| `QrDecoder.AttemptsAll` | app.py:32-53 | When every stage finds nothing, all stages run. |
| `QrDecoder.DecodeQrFirstStageWins` | app.py:25-51 | `decode_qr` returns `p` exactly when the image decodes and stage `k` is the first with a payload, which is `p`. Then exactly the first `k + 1` stages ran. |
| `QrDecoder.DecodeQrNone` | app.py:25-55 | `decode_qr` returns `None` exactly when the buffer is unreadable, the image is undecodable, all four stages find nothing, or a stage raises first. With no payload and no exception, all four stages run. |
| `QrDecoder.StageCounts` | app.py:32-51 | Stage counts by which stage reveals the code: a clean image stops after 1 stage, grayscale after 2, binarised after 3, and half-size after all 4. |
| `Text.IsSpace` | app.py:153-155 | The whitespace class of `str.strip()` and `str.isspace()`. |
| `Text.IsIntSpace` | app.py:93 | The whitespace `int()` skips around a numeral: the same class without U+001C..U+001F. |
| `Text.SkipForward` | app.py:207 | The scan over leading whitespace stops at the first non-whitespace character and passes only whitespace. |
| `Text.SkipBackward` | app.py:207 | The scan over trailing whitespace stops after the last non-whitespace character and passes only whitespace. |
| `Text.Strip` | app.py:207 | `str.strip()` (stated by `Text.StripSpec`). |
| `Text.StripSpec` | app.py:153-155 | `strip()` leaves the middle of the string with whitespace only around it. What remains neither starts nor ends with whitespace, and is empty exactly when the input is all whitespace. |
| `Text.StripKeeps` | app.py:207 | A string that neither starts nor ends with whitespace is unchanged by `strip()`. |
| `Text.StripPadding` | app.py:207 | `strip()` removes exactly the whitespace around a non-blank core. |
| `Text.SkipForwardStops` | app.py:207 | The leading-whitespace scan stops at the first non-whitespace character. |
| `Text.SkipBackwardStops` | app.py:207 | The trailing-whitespace scan stops after the last non-whitespace character. |
| `Text.Contains` | app.py:75-108 | Python's `part in s` (stated by `Text.ContainsAt`). |
| `Text.ContainsAt` | app.py:75-108 | Python's `part in s` holds exactly when `part` occurs at some position of `s`. |
| `HexInt.Ungroup` | app.py:93 | What the digit-group scan accepts yields a non-empty string of hex digits, no longer than its input. |
| `HexInt.UngroupSpec` | app.py:93 | The digit-group scan accepts exactly `digit ('_'? digit)*`. What it returns is the input with its underscores dropped. |
| `HexInt.GroupedStep` | app.py:93 | After a leading digit, the grammar continues with its own rest, either directly or after one underscore. |
| `HexInt.Grouped` | app.py:93 | The digit-group grammar by position: hex digits and underscores only, a digit at both ends, no two underscores in a row. |
| `HexInt.Digits` | app.py:93 | Dropping the underscores from a string of digits and underscores leaves only hex digits. |
| `HexInt.ParseSignedSpec` | app.py:93 | A numeral without surrounding whitespace raises exactly when the part after the sign and the prefix is outside the grammar. Otherwise its value is that of its digits, negated after `-`. |
| `HexInt.ParseHexIntSpec` | app.py:93 | `int(s, 16)` raises exactly when what is left after the skipped whitespace, the sign and the prefix is outside the grammar. Otherwise it returns the signed value of the digits. |
| `HexInt.ParseHexInt` | app.py:93 | `int(s, 16)`: whitespace is skipped, then the signed numeral is read (stated by `HexInt.ParseHexIntSpec`). |
| `HexInt.ParseSigned` | app.py:93 | One optional sign, an optional `0x`/`0X` prefix with one optional `_` after it, then the digit groups (stated by `HexInt.ParseSignedSpec`). |
| `HexInt.UngroupPlain` | app.py:93 | A plain run of hex digits passes the underscore grammar unchanged. |
| `HexInt.NumeralOfToHex` | app.py:93 | Reading the hex spelling of `n` as a base-16 numeral gives `n` back. |
| `HexInt.ParseUnpadded` | app.py:93 | A numeral with no whitespace at either end is parsed as written. |
| `HexInt.ParsePadded` | app.py:93 | Whitespace around a numeral does not change what `int(s, 16)` returns. |
| `HexInt.ToHex` | app.py:93 | The digits of Python's `hex(n)` after its `0x`: a non-empty run of hex digits (its exact spelling is stated by `HexInt.ToHexSpelling`). |
| `HexInt.ToHexSpelling` | app.py:93 | The spelling matches `hex(n)` after its `0x`: only `0`-`9` and `a`-`f`, and no leading zero for `n > 0`. |
| `HexInt.HexRoundTrip` | app.py:93 | `int(hex(n), 16) == n` for every natural `n`: `0x` followed by the lower-case hex digits of `n` parses back to `n`. |
| `HexInt.BareHexRoundTrip` | app.py:93 | The hex digits of `n` without a prefix also parse back to `n`. |
| `HexInt.ParseBareDigits` | app.py:93 | A non-empty run of hex digits parses to its base-16 value. |
| `HexInt.SignedBareDigits` | app.py:93 | Bare digits carry no sign and no prefix. |
| `HexInt.PrefixedSpelling` | app.py:93 | `0x1A` parses to 26: mixed-case digits and the `0x` prefix are accepted. |
| `HexInt.PlusSpelling` | app.py:93 | `+ff` parses to 255. |
| `HexInt.GroupedSpelling` | app.py:93 | `-0X_f_f` parses to -255: an upper-case prefix followed by `_` and a separating `_` are both accepted. |
| `HexInt.RejectedSpellings` | app.py:93 | `0x`, `0x__1` and `1_` raise ValueError. |
| `HexInt.PaddedSpelling` | app.py:93 | ` -0X_f_f\n` parses to -255. |
| `Balances.Menu` | app.py:161-162 | The five coin labels of the selector, in menu order. |
| `Balances.CoinIds` | app.py:63-64 | The price service's coin id for each of the five labels. |
| `Balances.Price` | app.py:62-70 | No price for a label outside the coin-id table or when the request raises. A price is returned exactly when the reply has a `usd` field under the coin's id, and it is that field. |
| `Balances.BitcoinLabel` | app.py:63-78 | The Bitcoin menu label goes to blockchain.info and has the id `bitcoin`. |
| `Balances.EthereumLabel` | app.py:63-95 | The Ethereum menu label goes to the Ethereum nodes and has the id `ethereum`. |
| `Balances.TronLabel` | app.py:63-106 | The Tron menu label goes to Tronscan and has the id `tron`. |
| `Balances.LitecoinLabel` | app.py:63-109 | The Litecoin menu label goes to Blockcypher's `ltc` chain and has the id `litecoin`. |
| `Balances.DogecoinLabel` | app.py:63-109 | The Dogecoin menu label goes to Blockcypher's `doge` chain and has the id `dogecoin`. |
| `Balances.EthereumRoute` | app.py:75-81 | A label that starts with `Ethereum` and has no `B` is sent to the Ethereum branch. |
| `Balances.TronRoute` | app.py:75-97 | A label that starts with `Tron` and has no `B` or `h` is sent to Tronscan. |
| `Balances.LitecoinRoute` | app.py:75-109 | A label that starts with `Litecoin` and has no `B`, `h` or `r` is sent to `ltc`. |
| `Balances.DogecoinRoute` | app.py:75-109 | A label that starts with `Dogecoin` and has no `B`, `h`, `r` or `L` is sent to `doge`. |
| `Balances.Leads` | app.py:75 | A label that starts with `part` contains it. |
| `Balances.Lacks` | app.py:75 | `part in s` is false when some character of `part` is absent from `s`. |
| `Balances.RouteOrder` | app.py:75-115 | The substring tests run in the order Bitcoin, Ethereum, Tron, then Litecoin or Dogecoin: each service is chosen exactly when its name is the first of these the label contains. Of the Blockcypher codes, `ltc` is chosen when the label contains Litecoin and `doge` otherwise. A label naming none of them gets no service. |
| `Balances.Route` | app.py:75-115 | The dispatch by substring tests (stated by `Balances.RouteOrder`). |
| `Balances.CoinId` | app.py:63-65 | `ids.get(coin_str)` over the five-entry table (stated by the label lemmas and `Balances.Price`). |
| `Balances.EthAddressShape` | app.py:82 | The shape check: starts with `0x` and has 42 characters (stated by `Balances.NoHexDigitCheck` and `Balances.SentinelOnlyForMalformedEthereum`). |
| `Balances.EthNodes` | app.py:85 | The three Ethereum nodes, in the order they are tried. |
| `Balances.NodeWei` | app.py:89-94 | One node's answer: an amount when the request returned a body whose `result` is a string `int(…, 16)` accepts (stated by `Balances.NodeSkips`). |
| `Balances.NodeSkips` | app.py:89-94 | A node is skipped exactly when its request or decode raised, there is no `result`, the result is not a string, or the string is outside the `int(…, 16)` grammar. |
| `Balances.Yields` | app.py:88-94 | Each node's answer as one function of the node (used by `Balances.QueryNodes`). |
| `Balances.FirstAnswer` | app.py:88-95 | Reference definition of the fallback: the first node whose answer yields an amount decides (stated by `Balances.FirstAnswerSpec`). |
| `Balances.EthereumSpec` | app.py:81-95 | The Ethereum branch as a value: `-1` for a malformed address, else the fallback's wei (stated by `Balances.EthereumBalance`). |
| `Balances.FirstAnswerSpec` | app.py:88-95 | The node fallback yields `wei` exactly when some node answers `wei` and every earlier node is skipped. It yields nothing exactly when every node is skipped. |
| `Balances.NodeQuantity` | app.py:93 | A node answering `hex(n)`, i.e. `0x` followed by the hex digits of `n`, yields `n` wei. |
| `Balances.QueryNodes` | app.py:88-95 | The node loop returns the fallback's answer. The nodes contacted are a prefix of the list: every one but the last was skipped, the last one answered, and all three were contacted when none answers. |
| `Balances.EthereumBalance` | app.py:81-95 | The Ethereum branch: `-1` with no node contacted when the shape check fails, otherwise the node loop's answer in wei. |
| `Balances.TronPick` | app.py:101-104 | The scan over `balances` only ever yields an amount in sun. |
| `Balances.TronPickFirstTrx` | app.py:101-103 | The first entry named `trx`, after entries with other names, decides the amount. |
| `Balances.TronPickUnnamed` | app.py:101-107 | An entry without `tokenName`, reached before any `trx` entry, makes the call raise, so the result is `None`. |
| `Balances.TronPickNoTrx` | app.py:101-104 | A `balances` list without a `trx` entry gives 0, not `None`. |
| `Balances.TronBalance` | app.py:97-107 | The Tron branch with its loop: `balances` first, then the top-level `balance`, else `None`. |
| `Balances.TronSpec` | app.py:97-107 | The Tron branch as a value: `balances` first, then the top-level `balance`, else `None` (stated by `Balances.TronBalance` and the `TronPick` lemmas). |
| `Balances.SunOf` | app.py:102-105 | A Tron amount in sun, or `None` when `float()` raised. |
| `Balances.SatoshiOf` | app.py:76-79 | A single-number reply in units of 10^-8 coin, or `None` when the call raised. |
| `Balances.Divisor` | app.py:78-112 | The divisor for each unit is positive: 10^8, 10^18 and 10^6. |
| `Balances.Coins` | app.py:78-112 | The number `get_balance` returns: -1 for the sentinel, else the amount over its divisor (stated by `Scan.MinusOneBalances`). |
| `Balances.BalanceSpec` | app.py:74-115 | `get_balance` as a value: the branch `Balances.Route` chooses (stated by `Balances.GetBalance` and `Balances.SentinelOnlyForMalformedEthereum`). |
| `Balances.GetBalance` | app.py:74-115 | `get_balance` dispatches by label to the branch belonging to its service. |
| `Balances.SentinelOnlyForMalformedEthereum` | app.py:81-83 | `get_balance` returns the `-1` sentinel exactly when the label goes to Ethereum and the address fails the shape check, whatever the network does. |
| `Balances.NoHexDigitCheck` | app.py:82-83 | Any 42-character string that starts with `0x` passes the shape check. No character after the prefix is examined. |
| `Scan.Placeholder` | app.py:153-155 | An all-whitespace or empty entry gives the placeholder. Any other entry is kept exactly as typed, surrounding blanks included. |
| `Scan.Details` | app.py:153-155 | Name, id and unit get the placeholders `Guest`, `N/A` and `N/A` exactly when blank. |
| `Scan.Greeting` | app.py:157-158 | The greeting appears exactly when the raw name entry is non-empty, and it greets the name after placeholders. |
| `Scan.BlankNameGreetsGuest` | app.py:153-158 | A name of blanks is greeted as `User: Guest`. |
| `Scan.IsMinusOne` | app.py:209 | The test `balance == -1` (stated by `Scan.MinusOneBalances`). |
| `Scan.ScanSpec` | app.py:201-214 | The scan action as a value (stated by the `Scan.*Cases` lemmas). |
| `Scan.Classify` | app.py:209-214 | The classification never produces "missing address". |
| `Scan.ScanBlockchain` | app.py:201-214 | An empty address asks for one and looks nothing up. Otherwise the result is the price for the coin and the balance for the stripped address, classified. |
| `Scan.MissingOnlyWhenEmpty` | app.py:202-203 | "Please enter a wallet address." appears exactly for the empty entry. Blanks are not caught there. |
| `Scan.MinusOneBalances` | app.py:209 | A balance equals `-1` exactly when it is the sentinel or a reported amount of minus one whole coin. |
| `Scan.InvalidFormatCases` | app.py:206-210 | "Invalid Address Format." appears exactly when the entry is non-empty and either the label goes to Ethereum and the stripped address fails the shape check, or a service reports minus one coin. The price plays no part. |
| `Scan.ConnectionErrorCases` | app.py:209-212 | The connection error appears exactly when the entry is non-empty, the balance is not `-1`, and either the balance or the price is missing. |
| `Scan.ClassifyValued` | app.py:209-214 | A result is shown exactly when both lookups answered and the balance is not `-1`. Its total is balance times price. |
| `Scan.ValuedCases` | app.py:201-221 | A shown result has the fetched price, and its scan data names the coin and the address exactly as entered. |
| `Scan.BlankEthereumAddress` | app.py:202-210 | A non-empty all-blank entry for an Ethereum label passes the emptiness test, strips to `""` and is reported as an invalid format. |
| `Scan.PaddedAddress` | app.py:206-207 | Blanks around an address do not change the balance lookup. The report keeps the entry as typed. |
| `Scan.AddressOf` | app.py:194 | The text the address entry shows for the key's value. |
| `Scan.Decodes` | app.py:174-175 | An image widget holds a picture whose QR code decodes to a non-empty payload. |
| `Scan.Interact` | app.py:17-18 | The key after the clear button's callback or an edit of the entry. |
| `Scan.Started` | app.py:13-14 | The key after the initialisation at the top of the page. |
| `Scan.Accepted` | app.py:172-188 | The key after one image tab: overwritten only by a decoded payload. |
| `Scan.AfterRun` | app.py:13-194 | The key after one run of the page, in the page's order of interaction, initialisation, upload tab and then camera tab. |
| `Scan.DecodedImageOverrides` | app.py:172-188 | A picture still held by an image widget decides the address on every run, overriding the clear button and any edit. The camera's payload wins over the upload's. |
| `Scan.NoImageKeepsInput` | app.py:13-18 | Without a decodable picture, a run leaves what the interaction left: `""` after the clear button, the typed text after an edit, and otherwise the entry unchanged. |
| `Scan.TabNotice` | app.py:174-189 | The tab's message: `QR Decoded:` with the payload on success; on failure the upload tab's error and nothing from the camera tab. |
| `Scan.Session.constructor` | app.py:13 | A new session has no `wallet_address` key. |
| `Scan.Session.Start` | app.py:13-14 | The key is created empty only when it is absent; otherwise it is left alone. |
| `Scan.Session.Address` | app.py:194 | The entry's text for the key (`Scan.AddressOf`). |
| `Scan.Session.ClearText` | app.py:17-18 | The clear button sets the address to `""`. |
| `Scan.Session.TypeAddress` | app.py:194 | Typing sets the address to the text typed. |
| `Scan.Session.AcceptImage` | app.py:172-189 | The decoded payload overwrites the address only on a non-empty decode. On failure the address is kept; the upload tab shows an error and the camera tab says nothing. |
| `Scan.Session.ScanCurrent` | app.py:194-207 | The scan button acts on the address currently in the entry. |
| `Scan.Session.Run` | app.py:13-214 | One run of the page leaves the key as `Scan.AfterRun` says. A tab holding a picture shows its `Scan.TabNotice`, and a tab without one shows nothing. The scan result is there exactly when the scan button was clicked, and it is the scan of the entry's final text. |
| `Scan.ClearThenScan` | app.py:13-214 | The clear button followed by the scan button: the key ends as two `Scan.AfterRun` steps leave it. With no decodable picture the entry is left empty and the scan asks for an address. Otherwise the key holds the payload of the picture still held, the camera's if it decodes, else the upload's, and the scan looks that payload up. |

## Left out

- OpenCV pixel work: `imdecode`, `cvtColor`, Otsu binarisation (under `THRESH_OTSU` the 128 is ignored and OpenCV computes its own threshold; 255 is the value given to white pixels), the 0.5 resize and `detectAndDecode`. Each stage is one input (`Probe`): it raised, or it returned the detector's data.
- HTTP and JSON decoding: the requests, the timeouts, the User-Agent header and response parsing are inputs. Each is what the call raised or returned. The URLs and the JSON-RPC payload are not modelled, except the list of Ethereum nodes.
- `Balances.Price`: it does not model a price that is not a number. In the source such a price makes `balance * price` raise outside any `try`; here a price is `Option<real>`.
- Floating point: balances are kept unscaled and their quotient is exact. Rounding is not modelled.
  - A huge Ethereum quantity makes `int / 10**18` raise OverflowError, which skips that node. This is not modelled.
  - The `{balance:.8f}` and `{total_usd:,.2f}` formatting is not modelled.
- `HexInt.ParseHexInt`: CPython's `int()` also accepts non-ASCII decimal digits, turning them into ASCII first. That is not modelled.
- Tron replies: `balances` is assumed to be a list of objects. Other shapes of a decoded reply, such as a list or a string, are not modelled.
- The metric's unit label (`coin_type.split('(')[1][:-1]`) is display only.
- The PDF report (`create_pdf`), the timestamps and the Streamlit widgets, layout and messages are left out. The scan data the report prints (coin, address as entered, total) is kept in `Scan.Outcome`.
- Widget state kept by the browser: a picture stays in its image widget until the user removes it. The model treats the widget's content on each run as an input, the same capture for every run of `Scan.ClearThenScan`. Resizing and re-encoding of camera snapshots are not modelled.
- `get_headers` returns a constant header; it plays no part in the logic.
