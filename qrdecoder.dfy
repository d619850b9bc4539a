/** `decode_qr`: four detection attempts on progressively transformed copies of
    one uploaded image, the first non-empty payload winning and any exception
    turning the whole call into `None`.

    The pixel work (imdecode, cvtColor, the Otsu binarisation, which ignores the
    threshold 128 and gives white pixels the value 255, the 0.5 resize,
    detectAndDecode) is foreign; each stage is modelled by what its
    transform and detector call yield together: raised, or returned a payload. */
module QrDecoder {
  import opened Wrappers

  /** The four attempts, in the order the source runs them. */
  datatype Stage = Direct | Grayscale | Threshold | HalfSize

  const Pipeline: seq<Stage> := [Direct, Grayscale, Threshold, HalfSize]

  /** One stage's transform plus detector call: raised, or returned the
      detector's data (empty string, or absent, when no code was found). */
  type Probe = Raw<Option<string>>

  /** Everything the foreign calls of one `decode_qr` invocation yield. */
  datatype Capture = Capture(
    readable: bool,  // reading the buffer and imdecode both ran without raising
                     // (false also covers an imdecode that raises, e.g. on an empty upload)
    decoded: bool,   // imdecode returned an image rather than None
    direct: Probe,
    gray: Probe,
    threshold: Probe,
    half: Probe)
  {
    function ProbeAt(s: Stage): Probe {
      match s
      case Direct => direct
      case Grayscale => gray
      case Threshold => threshold
      case HalfSize => half
    }

    /** The probes in pipeline order. */
    function Probes(): (ps: seq<Probe>)
      ensures |ps| == |Pipeline|
      ensures forall k :: 0 <= k < |Pipeline| ==> ps[k] == ProbeAt(Pipeline[k])
    {
      [direct, gray, threshold, half]
    }
  }

  /** Python truthiness of the detector's data: present and non-empty. */
  predicate Truthy(d: Option<string>) {
    d.Some? && d.value != ""
  }

  /** A stage that ran to completion without finding anything. */
  predicate Passes(p: Probe) {
    p.Returned? && !Truthy(p.value)
  }

  /** `decode_qr`, as the source writes it: a straight-line chain of early
      returns inside one try block. An undecodable image makes the first
      detector call raise, so it ends in `None` like every other failure. */
  function DecodeQr(c: Capture): (r: Option<string>)
    ensures r.Some? ==> r.value != ""
    ensures !c.readable || !c.decoded ==> r == None
  {
    if !c.readable || !c.decoded then None
    else match c.direct
      case Raised => None
      case Returned(d1) =>
        if Truthy(d1) then d1
        else match c.gray
          case Raised => None
          case Returned(d2) =>
            if Truthy(d2) then d2
            else match c.threshold
              case Raised => None
              case Returned(d3) =>
                if Truthy(d3) then d3
                else match c.half
                  case Raised => None
                  case Returned(d4) => if Truthy(d4) then d4 else None
  }

  /** Reference definition: an ordered list of probes evaluated by early-return
      iteration, stopping at the first payload or the first exception. */
  function FirstPayload(ps: seq<Probe>): Option<string> {
    if ps == [] then None else Step(ps[0], FirstPayload(ps[1..]))
  }

  /** One iteration: stop on an exception or a payload, else go on to `rest`. */
  function Step(p: Probe, rest: Option<string>): Option<string> {
    match p
    case Raised => None
    case Returned(d) => if Truthy(d) then d else rest
  }

  /** How many probes the iteration runs before it stops. */
  function Attempts(ps: seq<Probe>): (n: nat)
    ensures n <= |ps|
  {
    if ps == [] then 0
    else if Passes(ps[0]) then 1 + Attempts(ps[1..])
    else 1
  }

  /** The stages `decode_qr` enters, in order: none when the buffer cannot be
      read, only the first when imdecode gives None. */
  function StagesRun(c: Capture): seq<Stage> {
    if !c.readable then []
    else if !c.decoded then [Direct]
    else Pipeline[..Attempts(c.Probes())]
  }

  /** Stage `k` holds the first payload `p`: every earlier stage passed. */
  ghost predicate WinsAt(ps: seq<Probe>, k: int, p: string) {
    0 <= k < |ps| && ps[k] == Returned(Some(p)) && p != ""
    && forall j :: 0 <= j < k ==> Passes(ps[j])
  }

  /** Stage `k` is the first that raised: every earlier stage passed. */
  ghost predicate RaisesAt(ps: seq<Probe>, k: int) {
    0 <= k < |ps| && ps[k].Raised? && forall j :: 0 <= j < k ==> Passes(ps[j])
  }

  /** The straight-line chain is the ordered iteration over the four stages. */
  lemma DecodeQrIsFirstPayload(c: Capture)
    requires c.readable && c.decoded
    ensures DecodeQr(c) == FirstPayload(c.Probes())
  {
    var s4 := [c.half];
    assert s4[1..] == [];
    assert FirstPayload(s4) == Step(c.half, None);
    var s3 := [c.threshold, c.half];
    assert s3[1..] == s4;
    assert FirstPayload(s3) == Step(c.threshold, FirstPayload(s4));
    var s2 := [c.gray, c.threshold, c.half];
    assert s2[1..] == s3;
    assert FirstPayload(s2) == Step(c.gray, FirstPayload(s3));
    assert c.Probes()[1..] == s2;
    assert FirstPayload(c.Probes()) == Step(c.direct, FirstPayload(s2));
  }

  /** First stage wins: the iteration returns `p` exactly when some stage
      returned `p`, non-empty, and every stage before it ran and found nothing. */
  lemma {:induction false} FirstPayloadWins(ps: seq<Probe>, p: string)
    ensures FirstPayload(ps) == Some(p) <==> exists k :: WinsAt(ps, k, p)
  {
    if ps != [] {
      FirstPayloadWins(ps[1..], p);
      if Passes(ps[0]) {
        if k :| WinsAt(ps[1..], k, p) {
          assert WinsAt(ps, k + 1, p);
        }
        if k :| WinsAt(ps, k, p) {
          assert k != 0;
          assert WinsAt(ps[1..], k - 1, p);
        }
      } else {
        if FirstPayload(ps) == Some(p) {
          assert WinsAt(ps, 0, p);
        }
      }
    }
  }

  /** Every failure is `None`: when all stages pass, or when a stage raises
      before any payload was found. */
  lemma {:induction false} FirstPayloadNone(ps: seq<Probe>)
    ensures FirstPayload(ps) == None <==>
            (forall k :: 0 <= k < |ps| ==> Passes(ps[k])) || (exists k :: RaisesAt(ps, k))
  {
    if ps != [] {
      FirstPayloadNone(ps[1..]);
      if Passes(ps[0]) {
        if k :| RaisesAt(ps[1..], k) {
          assert RaisesAt(ps, k + 1);
        }
        if k :| RaisesAt(ps, k) {
          assert k != 0;
          assert RaisesAt(ps[1..], k - 1);
        }
        if forall k :: 0 <= k < |ps| - 1 ==> Passes(ps[1..][k]) {
          assert forall k :: 0 <= k < |ps| ==> Passes(ps[k]) by {
            forall k | 0 <= k < |ps| ensures Passes(ps[k]) {
              if k > 0 { assert ps[k] == ps[1..][k - 1]; }
            }
          }
        }
      } else if ps[0].Raised? {
        assert RaisesAt(ps, 0);
      } else {
        assert forall k :: RaisesAt(ps, k) && k > 0 ==> Passes(ps[0]);
      }
    }
  }

  /** No later stage runs after a success or an exception: the iteration has
      run through the winning (or raising) stage and no further. */
  lemma {:induction false} AttemptsStopAt(ps: seq<Probe>, k: nat)
    requires k < |ps| && !Passes(ps[k])
    requires forall j :: 0 <= j < k ==> Passes(ps[j])
    ensures Attempts(ps) == k + 1
  {
    if k > 0 {
      assert Passes(ps[0]);
      assert forall j :: 0 <= j < k - 1 ==> Passes(ps[1..][j]) by {
        forall j | 0 <= j < k - 1 ensures Passes(ps[1..][j]) {
          assert ps[1..][j] == ps[j + 1];
        }
      }
      AttemptsStopAt(ps[1..], k - 1);
    }
  }

  /** When nothing is found and nothing raises, every stage runs. */
  lemma {:induction false} AttemptsAll(ps: seq<Probe>)
    requires forall j :: 0 <= j < |ps| ==> Passes(ps[j])
    ensures Attempts(ps) == |ps|
  {
    if ps != [] {
      assert forall j :: 0 <= j < |ps| - 1 ==> Passes(ps[1..][j]) by {
        forall j | 0 <= j < |ps| - 1 ensures Passes(ps[1..][j]) {
          assert ps[1..][j] == ps[j + 1];
        }
      }
      AttemptsAll(ps[1..]);
    }
  }

  /** First stage wins, stated for `decode_qr` itself: it returns `p` exactly
      when the image was read and decoded and the `k`-th stage of the pipeline
      is the first with a non-empty payload, which is `p`; then the stages run
      are exactly the first `k + 1`, so at most four detector calls happen. */
  lemma DecodeQrFirstStageWins(c: Capture, p: string)
    ensures DecodeQr(c) == Some(p) <==>
            c.readable && c.decoded && exists k :: WinsAt(c.Probes(), k, p)
    ensures DecodeQr(c) == Some(p) ==>
            exists k :: WinsAt(c.Probes(), k, p) && StagesRun(c) == Pipeline[..k + 1]
  {
    if c.readable && c.decoded {
      DecodeQrIsFirstPayload(c);
      FirstPayloadWins(c.Probes(), p);
      if DecodeQr(c) == Some(p) {
        var k :| WinsAt(c.Probes(), k, p);
        AttemptsStopAt(c.Probes(), k);
      }
    }
  }

  /** Every failure is `None`: an unreadable buffer, an undecodable image, a
      stage that raises before any payload, or four stages that find nothing.
      With no exception and no payload, all four stages run. */
  lemma DecodeQrNone(c: Capture)
    ensures DecodeQr(c) == None <==>
            !c.readable || !c.decoded
            || (forall k :: 0 <= k < 4 ==> Passes(c.Probes()[k]))
            || (exists k :: RaisesAt(c.Probes(), k))
    ensures c.readable && c.decoded && (forall k :: 0 <= k < 4 ==> Passes(c.Probes()[k]))
            ==> StagesRun(c) == Pipeline
  {
    if c.readable && c.decoded {
      DecodeQrIsFirstPayload(c);
      FirstPayloadNone(c.Probes());
      if forall k :: 0 <= k < 4 ==> Passes(c.Probes()[k]) {
        AttemptsAll(c.Probes());
      }
    }
  }

  /** Four typical runs: a clean image stops after the direct
      attempt; one only the grayscale copy reveals stops after two stages; one
      only binarization reveals after three; an oversized one after all four. */
  lemma StageCounts(c: Capture, p: string)
    requires c.readable && c.decoded && p != ""
    ensures c.direct == Returned(Some(p)) ==> DecodeQr(c) == Some(p) && StagesRun(c) == [Direct]
    ensures Passes(c.direct) && c.gray == Returned(Some(p)) ==>
              DecodeQr(c) == Some(p) && StagesRun(c) == [Direct, Grayscale]
    ensures Passes(c.direct) && Passes(c.gray) && c.threshold == Returned(Some(p)) ==>
              DecodeQr(c) == Some(p) && StagesRun(c) == [Direct, Grayscale, Threshold]
    ensures Passes(c.direct) && Passes(c.gray) && Passes(c.threshold) && c.half == Returned(Some(p)) ==>
              DecodeQr(c) == Some(p) && StagesRun(c) == Pipeline
  {
    var ps := c.Probes();
    if c.direct == Returned(Some(p)) {
      AttemptsStopAt(ps, 0);
    } else if Passes(c.direct) && c.gray == Returned(Some(p)) {
      AttemptsStopAt(ps, 1);
    } else if Passes(c.direct) && Passes(c.gray) && c.threshold == Returned(Some(p)) {
      AttemptsStopAt(ps, 2);
    } else if Passes(c.direct) && Passes(c.gray) && Passes(c.threshold) && c.half == Returned(Some(p)) {
      AttemptsStopAt(ps, 3);
    }
  }
}
