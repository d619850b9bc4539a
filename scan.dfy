/** The page's own logic around the two lookups: the investigator details
    with their placeholders, the session's wallet address (set by a decoded QR
    code, by typing, or cleared by the button), and the "Scan Blockchain"
    action that reads the address, looks up price and balance and sorts the
    outcome into an error message or a result. */
module Scan {
  import opened Wrappers
  import Text
  import QrDecoder
  import Balances

  // ---------------------------------------------------------------------
  // Investigator details

  const Guest := "Guest"
  const NotAvailable := "N/A"

  /** `value if value.strip() else fallback`: an entry with anything but
      whitespace in it is kept exactly as typed, surrounding blanks included;
      an empty or all-whitespace entry gives the placeholder. */
  function Placeholder(input: string, fallback: string): (r: string)
    ensures Text.AllIn(input, Text.IsSpace) ==> r == fallback
    ensures !Text.AllIn(input, Text.IsSpace) ==> r == input
  {
    Text.StripSpec(input, Text.IsSpace);
    if Text.Strip(input, Text.IsSpace) != [] then input else fallback
  }

  /** The details the report is printed with. */
  datatype Investigator = Investigator(name: string, id: string, unit: string)

  /** The sidebar's three entries with their placeholders applied. */
  function Details(inputName: string, inputId: string, inputUnit: string): (d: Investigator)
    ensures d.name == (if Text.AllIn(inputName, Text.IsSpace) then Guest else inputName)
    ensures d.id == (if Text.AllIn(inputId, Text.IsSpace) then NotAvailable else inputId)
    ensures d.unit == (if Text.AllIn(inputUnit, Text.IsSpace) then NotAvailable else inputUnit)
  {
    Investigator(Placeholder(inputName, Guest), Placeholder(inputId, NotAvailable),
                 Placeholder(inputUnit, NotAvailable))
  }

  /** The sidebar's greeting: shown whenever the raw name entry is non-empty,
      even when it is only blanks, in which case it greets the guest. */
  function Greeting(inputName: string): (g: Option<string>)
    ensures g.Some? <==> inputName != ""
    ensures g.Some? ==> g.value == "User: " + Details(inputName, "", "").name
  {
    if inputName != "" then Some("User: " + Placeholder(inputName, Guest)) else None
  }

  /** A name of blanks is still greeted, as the guest. */
  lemma BlankNameGreetsGuest(inputName: string)
    requires inputName != "" && Text.AllIn(inputName, Text.IsSpace)
    ensures Details(inputName, "", "").name == Guest
    ensures Greeting(inputName) == Some("User: Guest")
  {
    assert "User: " + Guest == "User: Guest";
  }

  // ---------------------------------------------------------------------
  // The scan action

  /** What the scan button shows. `Valued` carries the metric values and the
      report's scan data: the coin label, the address as it was entered
      (unstripped) and the total. */
  datatype Outcome =
    | MissingAddress   // "Please enter a wallet address."
    | InvalidFormat    // "Invalid Address Format."
    | ConnectionError  // "Connection Error or API Limit. Try again."
    | Valued(balance: real, price: real, totalUsd: real, coin: string, address: string)

  /** The comparison `balance == -1`, on whatever `get_balance` returned. */
  predicate IsMinusOne(balance: Option<Balances.Balance>) {
    balance.Some? && Balances.Coins(balance.value) == -1.0
  }

  /** The three-way check, in the source's order: the `-1` sentinel first,
      then a missing balance or price, then the result. */
  function Classify(price: Option<real>, balance: Option<Balances.Balance>,
                    coin: string, address: string): (o: Outcome)
    ensures o != MissingAddress
  {
    if IsMinusOne(balance) then InvalidFormat
    else if balance.None? || price.None? then ConnectionError
    else
      var coins := Balances.Coins(balance.value);
      Valued(coins, price.value, coins * price.value, coin, address)
  }

  /** The scan action, as a value: nothing is looked up for an empty address;
      otherwise the price is fetched for the coin and the balance for the
      address with surrounding whitespace removed. */
  function ScanSpec(coin: string, address: string, priceReply: Raw<Balances.Quote>,
                    net: Balances.Network): Outcome
  {
    if address == "" then MissingAddress
    else Classify(Balances.Price(coin, priceReply),
                  Balances.BalanceSpec(coin, Text.Strip(address, Text.IsSpace), net),
                  coin, address)
  }

  /** The "Scan Blockchain" action. */
  method ScanBlockchain(coin: string, address: string, priceReply: Raw<Balances.Quote>,
                        net: Balances.Network) returns (o: Outcome)
    ensures address == "" ==> o == MissingAddress
    ensures address != "" ==> o == ScanSpec(coin, address, priceReply, net)
  {
    if address == "" {
      return MissingAddress;
    }
    var price := Balances.Price(coin, priceReply);
    var balance := Balances.GetBalance(coin, Text.Strip(address, Text.IsSpace), net);
    o := Classify(price, balance, coin, address);
  }

  /** "Please enter a wallet address." appears exactly for the empty entry; an
      entry of blanks is not caught here. */
  lemma MissingOnlyWhenEmpty(coin: string, address: string, priceReply: Raw<Balances.Quote>,
                             net: Balances.Network)
    ensures ScanSpec(coin, address, priceReply, net) == MissingAddress <==> address == ""
  {
  }

  /** A balance reads as the `-1` sentinel exactly when it is the sentinel or
      a reported amount of minus one whole coin in its unit. */
  lemma MinusOneBalances(b: Balances.Balance)
    ensures Balances.Coins(b) == -1.0 <==>
            b == Balances.InvalidAddress
            || (b.Native? && b.amount == -(Balances.Divisor(b.unit) as real))
  {
  }

  /** "Invalid Address Format." appears exactly when the entry is non-empty and
      either, for an Ethereum selector, the stripped address fails the shape
      check, or a service reports an amount of exactly minus one coin, which
      the `-1` test cannot tell apart. The price plays no part. */
  lemma InvalidFormatCases(coin: string, address: string, priceReply: Raw<Balances.Quote>,
                           net: Balances.Network)
    ensures ScanSpec(coin, address, priceReply, net) == InvalidFormat <==>
            address != "" &&
            var b := Balances.BalanceSpec(coin, Text.Strip(address, Text.IsSpace), net);
            (Balances.Route(coin) == Balances.EthereumRpc
               && !Balances.EthAddressShape(Text.Strip(address, Text.IsSpace)))
            || (b.Some? && b.value.Native? && b.value.amount == -(Balances.Divisor(b.value.unit) as real))
  {
    var stripped := Text.Strip(address, Text.IsSpace);
    var b := Balances.BalanceSpec(coin, stripped, net);
    Balances.SentinelOnlyForMalformedEthereum(coin, stripped, net);
    if b.Some? {
      MinusOneBalances(b.value);
    }
  }

  /** The connection error appears exactly when the entry is non-empty, the
      balance is not read as `-1`, and the balance or the price is missing. */
  lemma ConnectionErrorCases(coin: string, address: string, priceReply: Raw<Balances.Quote>,
                             net: Balances.Network)
    ensures ScanSpec(coin, address, priceReply, net) == ConnectionError <==>
            address != "" &&
            var b := Balances.BalanceSpec(coin, Text.Strip(address, Text.IsSpace), net);
            !IsMinusOne(b) && (b.None? || Balances.Price(coin, priceReply).None?)
  {
  }

  /** A result is shown exactly when both lookups answered and the balance is
      not read as `-1`; its total is balance times price, and the report names
      the coin and the address it is given. */
  lemma ClassifyValued(price: Option<real>, balance: Option<Balances.Balance>,
                       coin: string, address: string)
    ensures Classify(price, balance, coin, address).Valued? <==>
            balance.Some? && !IsMinusOne(balance) && price.Some?
    ensures var o := Classify(price, balance, coin, address);
            o.Valued? ==>
              (o.totalUsd == o.balance * o.price && o.coin == coin && o.address == address
               && o.price == price.value && o.balance == Balances.Coins(balance.value))
  {
  }

  /** For the scan itself: a result is shown exactly when the entry is
      non-empty, both lookups answered and the balance is not read as `-1`;
      the report keeps the address exactly as entered. */
  lemma ValuedCases(coin: string, address: string, priceReply: Raw<Balances.Quote>,
                    net: Balances.Network)
    ensures var o := ScanSpec(coin, address, priceReply, net);
            o.Valued? ==>
              (address != "" && o.coin == coin && o.address == address
               && Some(o.price) == Balances.Price(coin, priceReply))
  {
    if address != "" {
      var b := Balances.BalanceSpec(coin, Text.Strip(address, Text.IsSpace), net);
      ClassifyValued(Balances.Price(coin, priceReply), b, coin, address);
    }
  }

  /** An entry of blanks for an Ethereum selector passes the emptiness test,
      strips to the empty string and fails the shape check. */
  lemma BlankEthereumAddress(coin: string, address: string, priceReply: Raw<Balances.Quote>,
                             net: Balances.Network)
    requires address != "" && Text.AllIn(address, Text.IsSpace)
    requires Balances.Route(coin) == Balances.EthereumRpc
    ensures ScanSpec(coin, address, priceReply, net) == InvalidFormat
  {
    Text.StripSpec(address, Text.IsSpace);
  }

  /** Blanks around an address do not change the lookup: the balance is the
      one for the bare address, while the report keeps the entry as typed. */
  lemma PaddedAddress(coin: string, a: string, t: string, z: string,
                      priceReply: Raw<Balances.Quote>, net: Balances.Network)
    requires Text.AllIn(a, Text.IsSpace) && Text.AllIn(z, Text.IsSpace)
    requires t != [] && !Text.IsSpace(t[0]) && !Text.IsSpace(t[|t| - 1])
    ensures (a + t + z) != ""
    ensures ScanSpec(coin, a + t + z, priceReply, net)
            == Classify(Balances.Price(coin, priceReply), Balances.BalanceSpec(coin, t, net), coin, a + t + z)
  {
    Text.StripPadding(a, t, z, Text.IsSpace);
    assert |a + t + z| >= |t|;
  }

  // ---------------------------------------------------------------------
  // The session

  /** What the image tabs show after a decode attempt. */
  datatype Notice =
    | Decoded(payload: string)  // "QR Decoded: ..."
    | CouldNotRead              // the upload tab's error
    | NoNotice                  // the camera tab says nothing on failure

  /** The notice an image tab shows after decoding its picture: the payload
      on success, otherwise the upload tab's error or the camera tab's silence. */
  function TabNotice(c: QrDecoder.Capture, fromCamera: bool): Notice {
    match QrDecoder.DecodeQr(c)
    case Some(p) => Decoded(p)
    case None => if fromCamera then NoNotice else CouldNotRead
  }

  /** What the user did that made Streamlit run the page again: nothing (the
      first run, or another widget), a click on the clear button (its
      `on_click` callback runs before the page), an edit of the address entry
      (stored under its key before the page runs), or a click on the scan
      button (which reads as clicked during that run). */
  datatype Interaction = NoInput | ClearClicked | Typed(text: string) | ScanClicked

  /** The text the address entry shows for the key's value. */
  function AddressOf(w: Option<string>): string {
    match w
    case None => ""
    case Some(a) => a
  }

  /** An image widget holds a picture whose QR code decodes. */
  predicate Decodes(image: Option<QrDecoder.Capture>) {
    image.Some? && QrDecoder.DecodeQr(image.value).Some?
  }

  /** The key after the interaction's callback or widget update. */
  function Interact(w: Option<string>, i: Interaction): Option<string> {
    match i
    case ClearClicked => Some("")
    case Typed(t) => Some(t)
    case _ => w
  }

  /** The key after the initialisation at the top of the page. */
  function Started(w: Option<string>): Option<string> {
    if w.None? then Some("") else w
  }

  /** The key after one image widget's block: overwritten by a decoded payload. */
  function Accepted(w: Option<string>, image: Option<QrDecoder.Capture>): Option<string> {
    if Decodes(image) then QrDecoder.DecodeQr(image.value) else w
  }

  /** The key after one run of the page, in the order the page runs: the
      interaction, the initialisation, the upload tab, then the camera tab. */
  function AfterRun(w: Option<string>, i: Interaction, upload: Option<QrDecoder.Capture>,
                    camera: Option<QrDecoder.Capture>): Option<string> {
    Accepted(Accepted(Started(Interact(w, i)), upload), camera)
  }

  /** A picture still held by an image widget decodes again on every run and
      overrides a click on the clear button, an edit of the entry and
      whatever the key held: the camera's payload wins, else the upload's. */
  lemma DecodedImageOverrides(w: Option<string>, i: Interaction, upload: Option<QrDecoder.Capture>,
                              camera: Option<QrDecoder.Capture>)
    ensures Decodes(camera) ==> AfterRun(w, i, upload, camera) == QrDecoder.DecodeQr(camera.value)
    ensures !Decodes(camera) && Decodes(upload) ==>
              AfterRun(w, i, upload, camera) == QrDecoder.DecodeQr(upload.value)
    ensures Decodes(upload) || Decodes(camera) ==> AddressOf(AfterRun(w, i, upload, camera)) != ""
  {
  }

  /** With no decodable picture, a run leaves what the interaction left: the
      empty entry after the clear button, the typed text after an edit, and
      otherwise the key's value, created empty on the first run. */
  lemma NoImageKeepsInput(w: Option<string>, i: Interaction, upload: Option<QrDecoder.Capture>,
                          camera: Option<QrDecoder.Capture>)
    requires !Decodes(upload) && !Decodes(camera)
    ensures i == ClearClicked ==> AfterRun(w, i, upload, camera) == Some("")
    ensures i.Typed? ==> AfterRun(w, i, upload, camera) == Some(i.text)
    ensures (i == NoInput || i == ScanClicked) ==> AddressOf(AfterRun(w, i, upload, camera)) == AddressOf(w)
  {
  }

  /** Streamlit's session state as far as the page uses it: the one key
      `wallet_address`, `None` while it is absent. */
  class Session {
    var walletAddress: Option<string>

    /** A new session, before the page has run. */
    constructor()
      ensures walletAddress == None
    {
      walletAddress := None;
    }

    /** The start of every run: the key is created empty only if it is absent. */
    method Start()
      modifies this
      ensures walletAddress == Started(old(walletAddress))
      ensures old(walletAddress).None? ==> walletAddress == Some("")
      ensures old(walletAddress).Some? ==> walletAddress == old(walletAddress)
    {
      if walletAddress.None? {
        walletAddress := Some("");
      }
    }

    /** The address entry bound to the key. */
    function Address(): string
      reads this
    {
      AddressOf(walletAddress)
    }

    /** `clear_text`, run by the clear button. */
    method ClearText()
      modifies this
      ensures walletAddress == Some("")
      ensures Address() == ""
    {
      walletAddress := Some("");
    }

    /** Typing into the address entry. */
    method TypeAddress(text: string)
      modifies this
      ensures walletAddress == Some(text)
      ensures Address() == text
    {
      walletAddress := Some(text);
    }

    /** An uploaded file (`fromCamera` false) or a camera snapshot is decoded;
        the address is overwritten only by a non-empty payload, and a failure
        keeps whatever was there, reported only on the upload tab. */
    method AcceptImage(c: QrDecoder.Capture, fromCamera: bool) returns (n: Notice)
      modifies this
      ensures walletAddress == Accepted(old(walletAddress), Some(c))
      ensures QrDecoder.DecodeQr(c).Some? ==>
                walletAddress == QrDecoder.DecodeQr(c)
                && n == Decoded(QrDecoder.DecodeQr(c).value) && Address() != ""
      ensures QrDecoder.DecodeQr(c).None? ==>
                walletAddress == old(walletAddress)
                && n == (if fromCamera then NoNotice else CouldNotRead)
    {
      var qrData := QrDecoder.DecodeQr(c);
      if qrData.Some? && qrData.value != "" {
        walletAddress := qrData;
        n := Decoded(qrData.value);
      } else if fromCamera {
        n := NoNotice;
      } else {
        n := CouldNotRead;
      }
    }

    /** The scan button, on the address currently in the entry. */
    method ScanCurrent(coin: string, priceReply: Raw<Balances.Quote>, net: Balances.Network)
      returns (o: Outcome)
      ensures o == ScanSpec(coin, Address(), priceReply, net)
    {
      o := ScanBlockchain(coin, Address(), priceReply, net);
    }

    /** One run of the page after interaction `i`, with the pictures the two
        image widgets hold: the interaction's callback or entry update, the
        initialisation, the upload tab, the camera tab, then the scan when its
        button was the one clicked. A tab without a picture shows nothing. */
    method Run(i: Interaction, upload: Option<QrDecoder.Capture>, camera: Option<QrDecoder.Capture>,
               coin: string, priceReply: Raw<Balances.Quote>, net: Balances.Network)
      returns (uploadNotice: Option<Notice>, cameraNotice: Option<Notice>, outcome: Option<Outcome>)
      modifies this
      ensures walletAddress == AfterRun(old(walletAddress), i, upload, camera)
      ensures uploadNotice == if upload.Some? then Some(TabNotice(upload.value, false)) else None
      ensures cameraNotice == if camera.Some? then Some(TabNotice(camera.value, true)) else None
      ensures outcome == if i == ScanClicked then Some(ScanSpec(coin, Address(), priceReply, net)) else None
    {
      match i {
        case ClearClicked => ClearText();
        case Typed(t) => TypeAddress(t);
        case _ =>
      }
      Start();
      uploadNotice, cameraNotice, outcome := None, None, None;
      if upload.Some? {
        var n := AcceptImage(upload.value, false);
        uploadNotice := Some(n);
      }
      if camera.Some? {
        var n := AcceptImage(camera.value, true);
        cameraNotice := Some(n);
      }
      if i == ScanClicked {
        var o := ScanCurrent(coin, priceReply, net);
        outcome := Some(o);
      }
    }
  }

  /** The clear button, then the scan button: two runs of the page with the
      same pictures in the image widgets. With no decodable picture the scan
      asks for an address; a decodable picture is decoded again on both runs,
      so the scan looks up its payload instead. */
  method ClearThenScan(s: Session, upload: Option<QrDecoder.Capture>, camera: Option<QrDecoder.Capture>,
                       coin: string, priceReply: Raw<Balances.Quote>, net: Balances.Network)
    returns (o: Option<Outcome>)
    modifies s
    ensures s.walletAddress
            == AfterRun(AfterRun(old(s.walletAddress), ClearClicked, upload, camera), ScanClicked, upload, camera)
    ensures !Decodes(upload) && !Decodes(camera) ==> s.walletAddress == Some("")
    ensures Decodes(camera) ==> s.walletAddress == QrDecoder.DecodeQr(camera.value)
    ensures !Decodes(camera) && Decodes(upload) ==> s.walletAddress == QrDecoder.DecodeQr(upload.value)
    ensures !Decodes(upload) && !Decodes(camera) ==> o == Some(MissingAddress)
    ensures Decodes(camera) ==>
              o == Some(ScanSpec(coin, QrDecoder.DecodeQr(camera.value).value, priceReply, net))
    ensures !Decodes(camera) && Decodes(upload) ==>
              o == Some(ScanSpec(coin, QrDecoder.DecodeQr(upload.value).value, priceReply, net))
  {
    var w0 := s.walletAddress;
    var clearedUpload, clearedCamera, noScan := s.Run(ClearClicked, upload, camera, coin, priceReply, net);
    var w1 := s.walletAddress;
    var u, c;
    u, c, o := s.Run(ScanClicked, upload, camera, coin, priceReply, net);
    DecodedImageOverrides(w1, ScanClicked, upload, camera);
    if !Decodes(upload) && !Decodes(camera) {
      NoImageKeepsInput(w0, ClearClicked, upload, camera);
      NoImageKeepsInput(w1, ScanClicked, upload, camera);
    }
  }
}
