/** The visualiser's scale switch and the integer state machines that decide
    where note labels are placed under the spectrum bars. Drawing itself is
    not modelled: each loop returns the labels it would draw. */
module Overlay {

  const BASE_OCTAVE: nat := 3
  const BINS_PER_OCTAVE: nat := 12 * BASE_OCTAVE
  const N_BINS: nat := BINS_PER_OCTAVE * 9

  datatype Scale = Chromatic | Pelog | Slendro

  /** The scale shown when the visualiser starts. */
  const INITIAL_SCALE: Scale := Slendro

  /** `other_scale`: the scale that replaces `scale` when the switch key is
      pressed. It always changes the scale. */
  function OtherScale(scale: Scale): (next: Scale)
    ensures next != scale
  {
    match scale
    case Chromatic => Pelog
    case Pelog => Slendro
    case Slendro => Chromatic
  }

  /** Switching three times restores the original scale, and no fewer
      switches do. */
  lemma OtherScaleCycle(scale: Scale)
    ensures OtherScale(OtherScale(OtherScale(scale))) == scale
    ensures OtherScale(OtherScale(scale)) != scale
  {
  }

  /** The scale shown after `presses` presses of the switch key: presses
      cycle Slendro, Chromatic, Pelog with period three. */
  function ScaleAfter(presses: nat): (shown: Scale)
    ensures shown == [Slendro, Chromatic, Pelog][presses % 3]
  {
    if presses == 0 then INITIAL_SCALE else OtherScale(ScaleAfter(presses - 1))
  }

  // ---------------------------------------------------------------------
  // Labels

  /** A label as drawn: the loop's bin `bin`, the bin `at` whose bar
      position the label is drawn at, the lookup key (`i` for Chromatic,
      `counter` for the gamelan scales), the note text and the pixel shift
      `dissonance`. */
  datatype Label = Label(bin: nat, at: nat, key: int, note: string, dissonance: nat)

  const CHROMATIC: seq<string> := ["A", "", "B", "C", "", "D", "", "E", "F", "", "G", ""]

  const PELOG: map<int, string> := map[14 := "1", 18 := "2", 22 := "3", 29 := "4", 34 := "5", 1 := "6", 7 := "7"]

  const SLENDRO: map<int, string> := map[15 := "2", 22 := "3", 29 := "5", 36 := "6", 7 := "1"]

  /** Bins 1, 1 + BASE_OCTAVE, ... up to N_BINS: one Chromatic label each. */
  const CHROMATIC_COUNT: nat := (N_BINS - 1) / BASE_OCTAVE + 1

  /** The t-th Chromatic label: at bin 1 + BASE_OCTAVE * t with name index
      t mod 12, drawn at the position of the previous label's bin (the
      first at 0). */
  function ChromaticLabel(t: nat): (drawn: Label)
    ensures 0 <= drawn.key < |CHROMATIC|
  {
    var n := 1 + BASE_OCTAVE * t;
    Label(n, if t == 0 then 0 else n - BASE_OCTAVE, t % 12, CHROMATIC[t % 12], 0)
  }

  /** The Chromatic branch: steps `n` through 1..=N_BINS by BASE_OCTAVE,
      drawing `chromatic[i]` at `x` and then moving `x` to bin `n` and `i`
      on modulo 12. */
  method ChromaticLabels() returns (labels: seq<Label>)
    ensures |labels| == CHROMATIC_COUNT
    ensures forall t :: 0 <= t < |labels| ==> labels[t] == ChromaticLabel(t)
    ensures forall t :: 0 <= t < |labels| ==> 1 <= labels[t].bin <= N_BINS
  {
    var i := 0;
    var x := 0;
    var n := 1;
    labels := [];
    while n <= N_BINS
      invariant n == 1 + BASE_OCTAVE * |labels|
      invariant |labels| <= CHROMATIC_COUNT
      invariant i == |labels| % 12
      invariant x == if |labels| == 0 then 0 else n - BASE_OCTAVE
      invariant forall t :: 0 <= t < |labels| ==> labels[t] == ChromaticLabel(t)
      invariant forall t :: 0 <= t < |labels| ==> 1 <= labels[t].bin <= N_BINS
      decreases N_BINS + 1 - n
    {
      labels := labels + [Label(n, x, i, CHROMATIC[i], 0)];
      i := i + 1;
      x := n;
      if i >= 12 {
        i := 0;
      }
      n := n + BASE_OCTAVE;
    }
  }

  /** `counter` at bin `n` of the gamelan loops, the closed form the loop
      invariants hold it to. What it guarantees is the bound: the counter
      runs 1..BINS_PER_OCTAVE within each octave, so every map lookup uses a
      key in that range. */
  function CounterAt(n: nat): (counter: int)
    requires n >= 1
    ensures 1 <= counter <= BINS_PER_OCTAVE
    ensures (n - 1) % BINS_PER_OCTAVE == counter - 1
  {
    (n - 1) % BINS_PER_OCTAVE + 1
  }

  /** `octave` at bin `n` of the gamelan loops: the 1-based octave whose
      BINS_PER_OCTAVE bins contain `n`. */
  function OctaveAt(n: nat): (octave: int)
    requires n >= 1
    ensures octave >= 1
    ensures (octave - 1) * BINS_PER_OCTAVE < n <= octave * BINS_PER_OCTAVE
  {
    1 + (n - 1) / BINS_PER_OCTAVE
  }

  /** Pelog's `dissonance` at bin `n`: one step per bin after the fourth
      octave boundary. */
  function PelogDissonanceAt(n: nat): nat
  {
    if n > 4 * BINS_PER_OCTAVE then n - 4 * BINS_PER_OCTAVE else 0
  }

  /** Slendro's `dissonance` at bin `n`: one step per octave boundary from
      the fourth on. */
  function SlendroDissonanceAt(n: nat): nat
  {
    if n > 4 * BINS_PER_OCTAVE then (n - 1) / BINS_PER_OCTAVE - 3 else 0
  }

  /** The labels a gamelan loop draws over bins 1..upto, defined by
      recursion on `upto`: bin by bin, one label at bin `n` exactly when
      `notes` has the counter as a key, so at most one label per bin. */
  function GamelanLabels(notes: map<int, string>, dissonanceAt: nat -> nat, upto: nat): (labels: seq<Label>)
    ensures |labels| <= upto
    decreases upto
  {
    if upto == 0 then []
    else
      var counter := CounterAt(upto);
      GamelanLabels(notes, dissonanceAt, upto - 1) +
        (if counter in notes then [Label(upto, upto, counter, notes[counter], dissonanceAt(upto))] else [])
  }

  /** The Pelog branch: after each bin `counter` advances, resets to 1 with
      an `octave` increment at each octave boundary, and from the fifth
      octave on `dissonance` grows by one per bin. */
  method PelogLabels() returns (labels: seq<Label>)
    ensures labels == GamelanLabels(PELOG, PelogDissonanceAt, N_BINS)
  {
    var dissonance := 0;
    var octave := 1;
    var counter := 1;
    labels := [];
    for n := 1 to N_BINS + 1
      invariant counter == CounterAt(n)
      invariant octave == OctaveAt(n)
      invariant dissonance == PelogDissonanceAt(n)
      invariant labels == GamelanLabels(PELOG, PelogDissonanceAt, n - 1)
    {
      if counter in PELOG {
        labels := labels + [Label(n, n, counter, PELOG[counter], dissonance)];
      }
      counter := counter + 1;
      if n % BINS_PER_OCTAVE == 0 {
        octave := octave + 1;
        counter := 1;
      }
      if octave >= 5 {
        dissonance := dissonance + 1;
      }
    }
  }

  /** The Slendro branch: the same counter and octave as Pelog, but the
      `dissonance` step sits inside the octave-boundary branch, so it grows
      once per octave from the fifth octave on. */
  method SlendroLabels() returns (labels: seq<Label>)
    ensures labels == GamelanLabels(SLENDRO, SlendroDissonanceAt, N_BINS)
  {
    var dissonance := 0;
    var octave := 1;
    var counter := 1;
    labels := [];
    for n := 1 to N_BINS + 1
      invariant counter == CounterAt(n)
      invariant octave == OctaveAt(n)
      invariant dissonance == SlendroDissonanceAt(n)
      invariant labels == GamelanLabels(SLENDRO, SlendroDissonanceAt, n - 1)
    {
      if counter in SLENDRO {
        labels := labels + [Label(n, n, counter, SLENDRO[counter], dissonance)];
      }
      counter := counter + 1;
      if n % BINS_PER_OCTAVE == 0 {
        octave := octave + 1;
        counter := 1;
        if octave >= 5 {
          dissonance := dissonance + 1;
        }
      }
    }
  }

  // ---------------------------------------------------------------------
  // Properties of the label loops

  /** A label the gamelan loop over `notes` draws for some bin in 1..upto:
      at that bin's own position, keyed by that bin's counter, with the note
      the scale maps that key to and that bin's dissonance. */
  predicate WellPlaced(notes: map<int, string>, dissonanceAt: nat -> nat, upto: nat, l: Label)
  {
    && 1 <= l.bin <= upto
    && l.at == l.bin
    && l.key == CounterAt(l.bin)
    && l.key in notes
    && l.note == notes[l.key]
    && l.dissonance == dissonanceAt(l.bin)
  }

  /** The gamelan label that bin `n` contributes, if its counter has a note. */
  function GamelanStep(notes: map<int, string>, dissonanceAt: nat -> nat, n: nat): seq<Label>
    requires n >= 1
  {
    if CounterAt(n) in notes then [Label(n, n, CounterAt(n), notes[CounterAt(n)], dissonanceAt(n))] else []
  }

  lemma GamelanLabelsUnfold(notes: map<int, string>, dissonanceAt: nat -> nat, upto: nat)
    requires upto >= 1
    ensures GamelanLabels(notes, dissonanceAt, upto)
         == GamelanLabels(notes, dissonanceAt, upto - 1) + GamelanStep(notes, dissonanceAt, upto)
  {
  }

  /** Every gamelan label is well placed, and bins increase strictly along
      the sequence. */
  lemma {:induction false} GamelanLabelsWellFormed(notes: map<int, string>, dissonanceAt: nat -> nat, upto: nat)
    ensures forall t :: 0 <= t < |GamelanLabels(notes, dissonanceAt, upto)| ==>
      WellPlaced(notes, dissonanceAt, upto, GamelanLabels(notes, dissonanceAt, upto)[t])
    ensures forall t, u :: 0 <= t < u < |GamelanLabels(notes, dissonanceAt, upto)| ==>
      GamelanLabels(notes, dissonanceAt, upto)[t].bin < GamelanLabels(notes, dissonanceAt, upto)[u].bin
  {
    if upto > 0 {
      GamelanLabelsWellFormed(notes, dissonanceAt, upto - 1);
      GamelanLabelsUnfold(notes, dissonanceAt, upto);
      var before := GamelanLabels(notes, dissonanceAt, upto - 1);
      var step := GamelanStep(notes, dissonanceAt, upto);
      var labels := GamelanLabels(notes, dissonanceAt, upto);
      forall t | 0 <= t < |labels|
        ensures WellPlaced(notes, dissonanceAt, upto, labels[t])
        ensures t < |before| ==> labels[t] == before[t] && labels[t].bin < upto
        ensures t >= |before| ==> labels[t].bin == upto
      {
        if t < |before| {
          assert labels[t] == before[t];
          assert WellPlaced(notes, dissonanceAt, upto - 1, before[t]);
        } else {
          assert labels[t] == step[t - |before|];
        }
      }
    }
  }

  /** A label is drawn at bin `n` exactly when the counter at `n` is a key
      of the scale's note map. */
  lemma {:induction false} GamelanLabelDrawnIff(notes: map<int, string>, dissonanceAt: nat -> nat, upto: nat, n: nat)
    requires 1 <= n <= upto
    ensures (exists t :: 0 <= t < |GamelanLabels(notes, dissonanceAt, upto)| &&
               GamelanLabels(notes, dissonanceAt, upto)[t].bin == n)
            <==> CounterAt(n) in notes
  {
    var labels := GamelanLabels(notes, dissonanceAt, upto);
    var before := GamelanLabels(notes, dissonanceAt, upto - 1);
    var step := GamelanStep(notes, dissonanceAt, upto);
    GamelanLabelsUnfold(notes, dissonanceAt, upto);
    GamelanLabelsWellFormed(notes, dissonanceAt, upto);
    if CounterAt(n) in notes {
      if n < upto {
        GamelanLabelDrawnIff(notes, dissonanceAt, upto - 1, n);
        var t :| 0 <= t < |before| && before[t].bin == n;
        assert labels[t] == before[t];
      } else {
        assert labels[|before|] == step[0];
      }
    } else {
      forall t | 0 <= t < |labels|
        ensures labels[t].bin != n
      {
        assert WellPlaced(notes, dissonanceAt, upto, labels[t]);
      }
    }
  }

  /** Bin `m` is the fourth octave boundary or a later bin: the steps after
      which the loop's octave is five or more and Pelog grows its
      dissonance. */
  predicate PelogStep(m: nat)
  {
    m >= 4 * BINS_PER_OCTAVE
  }

  /** Bin `m` is an octave boundary from the fourth on: the steps that reset
      the counter into the fifth or a later octave, where Slendro grows its
      dissonance. */
  predicate SlendroStep(m: nat)
  {
    m >= 4 * BINS_PER_OCTAVE && m % BINS_PER_OCTAVE == 0
  }

  /** Pelog's dissonance at bin `n` counts the earlier bins m with
      4 * BINS_PER_OCTAVE <= m. */
  lemma {:induction false} PelogDissonanceCounts(n: nat)
    ensures PelogDissonanceAt(n) == |set m: nat | m < n && PelogStep(m)|
  {
    if n == 0 {
      assert (set m: nat | m < n && PelogStep(m)) == {};
    } else {
      PelogDissonanceCounts(n - 1);
      var prev := set m: nat | m < n - 1 && PelogStep(m);
      if PelogStep(n - 1) {
        assert (set m: nat | m < n && PelogStep(m)) == prev + {n - 1};
      } else {
        assert (set m: nat | m < n && PelogStep(m)) == prev;
      }
    }
  }

  /** Slendro's dissonance at bin `n` counts the earlier octave boundaries
      m (multiples of BINS_PER_OCTAVE) with 4 * BINS_PER_OCTAVE <= m. */
  lemma {:induction false} SlendroDissonanceCounts(n: nat)
    ensures SlendroDissonanceAt(n) == |set m: nat | m < n && SlendroStep(m)|
  {
    if n == 0 {
      assert (set m: nat | m < n && SlendroStep(m)) == {};
    } else {
      SlendroDissonanceCounts(n - 1);
      var prev := set m: nat | m < n - 1 && SlendroStep(m);
      if SlendroStep(n - 1) {
        assert (set m: nat | m < n && SlendroStep(m)) == prev + {n - 1};
      } else {
        assert (set m: nat | m < n && SlendroStep(m)) == prev;
      }
    }
  }
}
