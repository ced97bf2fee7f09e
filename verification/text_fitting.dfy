/**
 * How one text request is fitted into its maximum width: drawn as it is when it
 * is narrow enough; otherwise either shrunk by 10 % steps (auto-scale) or cut
 * down one character at a time and ended with an ellipsis. The text measure of
 * the font engine is a parameter: width(text, size) is the measured width of
 * text at font size size.
 */
module TextFitting {

  const Ellipsis: char := '\U{2026}'

  /** The only state of a text style that fitting uses: its configured size. */
  datatype TextSettings = TextSettings(originalFontSize: real)

  /** What a fitting ends in: a text drawn at a size, nothing drawn, or an exception. */
  datatype Drawing = Drawn(text: string, size: real) | NotDrawn | Faulted

  /** text.TrimEnd('…'): the text without its trailing ellipses. */
  function TrimEllipsis(text: string): (r: string)
    ensures |r| <= |text| && r == text[..|r|]
    ensures r == [] || r[|r| - 1] != Ellipsis
    ensures forall i :: |r| <= i < |text| ==> text[i] == Ellipsis
    decreases |text|
  {
    if text != [] && text[|text| - 1] == Ellipsis then TrimEllipsis(text[..|text| - 1]) else text
  }

  predicate AllEllipses(text: string) {
    forall i :: 0 <= i < |text| ==> text[i] == Ellipsis
  }

  /** Trimming leaves nothing exactly when the text is made of ellipses only. */
  lemma TrimEmptyIffEllipses(text: string)
    ensures TrimEllipsis(text) == [] <==> AllEllipses(text)
  {
    var r := TrimEllipsis(text);
    if r != [] {
      assert text[|r| - 1] == r[|r| - 1] != Ellipsis;
    }
  }

  /** The next candidate: the trimmed text less its last character, then an ellipsis. */
  function Truncated(text: string): (r: string)
    requires TrimEllipsis(text) != []
    ensures |r| == |TrimEllipsis(text)| && r[|r| - 1] == Ellipsis
    ensures r[..|r| - 1] == text[..|r| - 1]
  {
    var t := TrimEllipsis(text);
    t[..|t| - 1] + [Ellipsis]
  }

  /** Each truncation removes at least one character that is not an ellipsis. */
  lemma TruncatedShrinks(text: string)
    requires TrimEllipsis(text) != []
    ensures |TrimEllipsis(Truncated(text))| < |TrimEllipsis(text)|
  {
    var r := Truncated(text);
    assert r[..|r| - 1] + [Ellipsis] == r;
    TrimAppendEllipsis(r[..|r| - 1]);
  }

  lemma TrimAppendEllipsis(p: string)
    ensures TrimEllipsis(p + [Ellipsis]) == TrimEllipsis(p)
  {
    assert (p + [Ellipsis])[..|p|] == p;
  }

  /** d is text cut short: a strict prefix of the trimmed text followed by an ellipsis. */
  predicate Abbreviates(d: string, text: string) {
    && |d| >= 1 && d[|d| - 1] == Ellipsis
    && |d| - 1 < |TrimEllipsis(text)|
    && d[..|d| - 1] == text[..|d| - 1]
  }

  lemma AbbreviatesTruncated(d: string, text: string)
    requires TrimEllipsis(text) != []
    requires d == Truncated(text) || Abbreviates(d, Truncated(text))
    ensures Abbreviates(d, text)
  {
    var t := Truncated(text);
    if d != t {
      var k := |d| - 1;
      assert k < |t| - 1 by {
        TruncatedShrinks(text);
      }
      PrefixOfPrefix(t, text, |t| - 1, k);
    }
  }

  /** Agreement on the first n characters implies agreement on the first k <= n. */
  lemma PrefixOfPrefix(a: string, b: string, n: nat, k: nat)
    requires k <= n <= |a| && n <= |b| && a[..n] == b[..n]
    ensures a[..k] == b[..k]
  {
    assert a[..k] == a[..n][..k];
    assert b[..k] == b[..n][..k];
  }

  /**
   * Fitting without auto-scale, as written: the text is drawn when it is
   * narrower than maxWidth; a wider text of more than one character is
   * truncated and tried again at the same size; a wider single character is not
   * drawn. A wide text of ellipses only has nothing left once trimmed, and the
   * range [..^1] of an empty string throws.
   */
  function FitByTruncation(text: string, size: real, maxWidth: int, width: (string, real) -> real): (r: Drawing)
    ensures width(text, size) < maxWidth as real ==> r == Drawn(text, size)
    ensures r.Drawn? ==> r.size == size && width(r.text, size) < maxWidth as real
    ensures r.Drawn? ==> r.text == text || Abbreviates(r.text, text)
    ensures r == Faulted ==> width(text, size) >= maxWidth as real && |text| > 1
    ensures |text| <= 1 && width(text, size) >= maxWidth as real ==> r == NotDrawn
    decreases |TrimEllipsis(text)|
  {
    if width(text, size) < maxWidth as real then Drawn(text, size)
    else if |text| > 1 then
      if TrimEllipsis(text) == [] then Faulted
      else
        TruncatedShrinks(text);
        var r := FitByTruncation(Truncated(text), size, maxWidth, width);
        if r.Drawn? then AbbreviatesTruncated(r.text, text); r else r
    else NotDrawn
  }

  /**
   * Fitting without auto-scale with the missing guard: a text with nothing left
   * once trimmed is not drawn, like a single wide character.
   */
  function FitByTruncationGuarded(text: string, size: real, maxWidth: int, width: (string, real) -> real): (r: Drawing)
    ensures r != Faulted
    ensures width(text, size) < maxWidth as real ==> r == Drawn(text, size)
    ensures r.Drawn? ==> r.size == size && width(r.text, size) < maxWidth as real
    ensures r.Drawn? ==> r.text == text || Abbreviates(r.text, text)
    ensures |text| <= 1 && width(text, size) >= maxWidth as real ==> r == NotDrawn
    decreases |TrimEllipsis(text)|
  {
    if width(text, size) < maxWidth as real then Drawn(text, size)
    else if |text| > 1 && TrimEllipsis(text) != [] then
      TruncatedShrinks(text);
      var r := FitByTruncationGuarded(Truncated(text), size, maxWidth, width);
      if r.Drawn? then AbbreviatesTruncated(r.text, text); r else r
    else NotDrawn
  }

  /** Whether a candidate can be cut down further: it has more than one character and is not all ellipses. */
  predicate CanTruncate(text: string) {
    |text| > 1 && TrimEllipsis(text) != []
  }

  /**
   * The k-th candidate the truncation tries: the text itself, then each
   * truncation in turn; once a candidate cannot be cut down it stays.
   */
  function Candidate(text: string, k: nat): string
    decreases k
  {
    if k == 0 || !CanTruncate(text) then text else Candidate(Truncated(text), k - 1)
  }

  /** A candidate that cannot be cut down is every later candidate too. */
  lemma CandidateStays(text: string, k: nat)
    requires !CanTruncate(text)
    ensures Candidate(text, k) == text
  {
  }

  /** After a text that can be cut down come the candidates of its truncation. */
  lemma CandidateShift(text: string, k: nat)
    requires CanTruncate(text)
    ensures Candidate(text, k + 1) == Candidate(Truncated(text), k)
  {
  }

  /** None of the first k candidates fits. */
  ghost predicate WideUpTo(text: string, k: nat, size: real, maxWidth: int, width: (string, real) -> real) {
    forall j: nat :: j < k ==> width(Candidate(text, j), size) >= maxWidth as real
  }

  /** No candidate fits. */
  ghost predicate AllWide(text: string, size: real, maxWidth: int, width: (string, real) -> real) {
    forall j: nat :: width(Candidate(text, j), size) >= maxWidth as real
  }

  lemma WideUpToShift(text: string, k: nat, size: real, maxWidth: int, width: (string, real) -> real)
    requires CanTruncate(text) && width(text, size) >= maxWidth as real
    requires WideUpTo(Truncated(text), k, size, maxWidth, width)
    ensures WideUpTo(text, k + 1, size, maxWidth, width)
  {
    forall j: nat | j < k + 1 ensures width(Candidate(text, j), size) >= maxWidth as real {
      if j > 0 {
        CandidateShift(text, j - 1);
      }
    }
  }

  lemma AllWideShift(text: string, size: real, maxWidth: int, width: (string, real) -> real)
    requires CanTruncate(text) && width(text, size) >= maxWidth as real
    requires AllWide(Truncated(text), size, maxWidth, width)
    ensures AllWide(text, size, maxWidth, width)
  {
    forall j: nat ensures width(Candidate(text, j), size) >= maxWidth as real {
      if j > 0 {
        CandidateShift(text, j - 1);
      }
    }
  }

  lemma AllWideStays(text: string, size: real, maxWidth: int, width: (string, real) -> real)
    requires !CanTruncate(text) && width(text, size) >= maxWidth as real
    ensures AllWide(text, size, maxWidth, width)
  {
    forall j: nat ensures width(Candidate(text, j), size) >= maxWidth as real {
      CandidateStays(text, j);
    }
  }

  /**
   * The code as written draws the first candidate that fits. When none fits it
   * draws nothing if the candidates end at one character, and throws if they end
   * at a text of ellipses only.
   */
  lemma {:induction false} FitByTruncationFirstFit(text: string, size: real, maxWidth: int, width: (string, real) -> real)
    ensures var r := FitByTruncation(text, size, maxWidth, width);
            && (r.Drawn? ==> exists k: nat :: r.text == Candidate(text, k) && WideUpTo(text, k, size, maxWidth, width))
            && (!r.Drawn? ==> AllWide(text, size, maxWidth, width))
            && (r == NotDrawn ==> exists k: nat :: |Candidate(text, k)| <= 1)
            && (r == Faulted ==> exists k: nat :: |Candidate(text, k)| > 1 && AllEllipses(Candidate(text, k)))
    decreases |TrimEllipsis(text)|
  {
    var r := FitByTruncation(text, size, maxWidth, width);
    if width(text, size) < maxWidth as real {
      assert r.text == Candidate(text, 0) && WideUpTo(text, 0, size, maxWidth, width);
    } else if !CanTruncate(text) {
      AllWideStays(text, size, maxWidth, width);
      assert Candidate(text, 0) == text;
      if r == Faulted {
        TrimEmptyIffEllipses(text);
      }
    } else {
      var t := Truncated(text);
      TruncatedShrinks(text);
      FitByTruncationFirstFit(t, size, maxWidth, width);
      assert r == FitByTruncation(t, size, maxWidth, width);
      if r.Drawn? {
        var k: nat :| r.text == Candidate(t, k) && WideUpTo(t, k, size, maxWidth, width);
        CandidateShift(text, k);
        WideUpToShift(text, k, size, maxWidth, width);
      } else {
        AllWideShift(text, size, maxWidth, width);
        if r == NotDrawn {
          var k: nat :| |Candidate(t, k)| <= 1;
          CandidateShift(text, k);
        } else {
          var k: nat :| |Candidate(t, k)| > 1 && AllEllipses(Candidate(t, k));
          CandidateShift(text, k);
        }
      }
    }
  }

  /**
   * With the guard, the first candidate that fits is drawn; nothing is drawn
   * exactly when no candidate fits, the candidates then ending at one character
   * or at a text of ellipses only.
   */
  lemma {:induction false} GuardedFirstFit(text: string, size: real, maxWidth: int, width: (string, real) -> real)
    ensures var r := FitByTruncationGuarded(text, size, maxWidth, width);
            && (r.Drawn? ==> exists k: nat :: r.text == Candidate(text, k) && WideUpTo(text, k, size, maxWidth, width))
            && (r == NotDrawn ==> AllWide(text, size, maxWidth, width))
            && (r == NotDrawn ==> exists k: nat :: |Candidate(text, k)| <= 1 || AllEllipses(Candidate(text, k)))
    decreases |TrimEllipsis(text)|
  {
    var r := FitByTruncationGuarded(text, size, maxWidth, width);
    if width(text, size) < maxWidth as real {
      assert r.text == Candidate(text, 0) && WideUpTo(text, 0, size, maxWidth, width);
    } else if !CanTruncate(text) {
      AllWideStays(text, size, maxWidth, width);
      assert Candidate(text, 0) == text;
      TrimEmptyIffEllipses(text);
    } else {
      var t := Truncated(text);
      TruncatedShrinks(text);
      GuardedFirstFit(t, size, maxWidth, width);
      assert r == FitByTruncationGuarded(t, size, maxWidth, width);
      if r.Drawn? {
        var k: nat :| r.text == Candidate(t, k) && WideUpTo(t, k, size, maxWidth, width);
        CandidateShift(text, k);
        WideUpToShift(text, k, size, maxWidth, width);
      } else {
        AllWideShift(text, size, maxWidth, width);
        var k: nat :| |Candidate(t, k)| <= 1 || AllEllipses(Candidate(t, k));
        CandidateShift(text, k);
      }
    }
  }

  /** With the guard, a text is drawn whenever one of its candidates fits. */
  lemma GuardedDrawsWhenSomeFits(text: string, k: nat, size: real, maxWidth: int, width: (string, real) -> real)
    requires width(Candidate(text, k), size) < maxWidth as real
    ensures FitByTruncationGuarded(text, size, maxWidth, width).Drawn?
  {
    GuardedFirstFit(text, size, maxWidth, width);
  }

  /** The guard changes nothing where the code as written does not throw. */
  lemma {:induction false} GuardAgrees(text: string, size: real, maxWidth: int, width: (string, real) -> real)
    requires FitByTruncation(text, size, maxWidth, width) != Faulted
    ensures FitByTruncationGuarded(text, size, maxWidth, width) == FitByTruncation(text, size, maxWidth, width)
    decreases |TrimEllipsis(text)|
  {
    if !(width(text, size) < maxWidth as real) && |text| > 1 && TrimEllipsis(text) != [] {
      TruncatedShrinks(text);
      GuardAgrees(Truncated(text), size, maxWidth, width);
    }
  }

  /**
   * A text of two or more ellipses that is too wide makes the code as written
   * throw: TrimEnd leaves an empty string.
   */
  lemma EllipsesFault(text: string, size: real, maxWidth: int, width: (string, real) -> real)
    requires |text| > 1 && AllEllipses(text)
    requires width(text, size) >= maxWidth as real
    ensures FitByTruncation(text, size, maxWidth, width) == Faulted
    ensures FitByTruncationGuarded(text, size, maxWidth, width) == NotDrawn
  {
    TrimEmptyIffEllipses(text);
  }

  /** A name beginning with ellipses: once its last letter is cut the candidate is all ellipses. */
  lemma LeadingEllipsesFault(size: real, width: (string, real) -> real)
    requires forall s :: width(s, size) >= 200.0
    ensures FitByTruncation([Ellipsis, Ellipsis, 'a'], size, 200, width) == Faulted
  {
    var text := [Ellipsis, Ellipsis, 'a'];
    assert TrimEllipsis(text) == text;
    assert Truncated(text) == [Ellipsis, Ellipsis, Ellipsis];
    EllipsesFault(Truncated(text), size, 200, width);
  }

  /** The size after k shrink steps of 10 %. */
  function Shrunk(size: real, k: nat): (r: real)
    ensures size >= 0.0 ==> 0.0 <= r <= size
  {
    if k == 0 then size else Shrunk(size, k - 1) * 0.9
  }

  /** The shrink loop ends: some number of steps (at least one) makes the text fit. */
  ghost predicate ShrinkEnds(text: string, size: real, maxWidth: int, width: (string, real) -> real) {
    exists k: nat :: k >= 1 && width(text, Shrunk(size, k)) <= maxWidth as real
  }

  /**
   * The private DrawCentered: the text is drawn as it is when narrower than
   * maxWidth; with auto-scale it is shrunk until its width is at most maxWidth,
   * at least once; without, it is truncated as FitByTruncation describes. steps
   * is the number of shrink steps taken.
   */
  method DrawFitted(text: string, size: real, maxWidth: int, autoScale: bool, width: (string, real) -> real)
      returns (d: Drawing, ghost steps: nat)
    requires autoScale && width(text, size) >= maxWidth as real ==> ShrinkEnds(text, size, maxWidth, width)
    ensures !autoScale ==> d == FitByTruncation(text, size, maxWidth, width)
    ensures autoScale && width(text, size) < maxWidth as real ==> d == Drawn(text, size)
    ensures autoScale && width(text, size) >= maxWidth as real ==>
              && steps >= 1 && d == Drawn(text, Shrunk(size, steps))
              && width(text, d.size) <= maxWidth as real
              && forall j :: 1 <= j < steps ==> width(text, Shrunk(size, j)) > maxWidth as real
    decreases |TrimEllipsis(text)|
  {
    d, steps := NotDrawn, 0;
    var w := width(text, size);
    if w < maxWidth as real {
      d := Drawn(text, size);
    } else if autoScale {
      ghost var fits: nat :| fits >= 1 && width(text, Shrunk(size, fits)) <= maxWidth as real;
      var s := size * 0.9;
      steps := 1;
      w := width(text, s);
      while w > maxWidth as real
        invariant 1 <= steps <= fits
        invariant s == Shrunk(size, steps) && w == width(text, s)
        invariant forall j :: 1 <= j < steps ==> width(text, Shrunk(size, j)) > maxWidth as real
        decreases fits - steps
      {
        s := s * 0.9;
        steps := steps + 1;
        w := width(text, s);
      }
      d := Drawn(text, s);
    } else if |text| > 1 {
      if autoScale {
        // The rescaling branch for auto-scale under this test cannot be reached.
        assert false;
      }
      var trimmed := TrimEllipsis(text);
      if trimmed == [] {
        d := Faulted;
      } else {
        TruncatedShrinks(text);
        d, steps := DrawFitted(trimmed[..|trimmed| - 1] + [Ellipsis], size, maxWidth, autoScale, width);
      }
    }
  }

  /**
   * The public DrawCentered: the font is the configured size times the request's
   * scale. A request at scale 1/n for a name of the default 18 is fitted at 18/n.
   */
  method DrawCentered(settings: TextSettings, text: string, maxWidth: int, scale: real, autoScale: bool,
                      width: (string, real) -> real)
      returns (d: Drawing)
    requires autoScale && width(text, settings.originalFontSize * scale) >= maxWidth as real ==>
               ShrinkEnds(text, settings.originalFontSize * scale, maxWidth, width)
    ensures !autoScale ==> d == FitByTruncation(text, settings.originalFontSize * scale, maxWidth, width)
    ensures autoScale ==> d.Drawn? && d.text == text && width(text, d.size) <= maxWidth as real
    ensures autoScale && d.size != settings.originalFontSize * scale ==>
              width(text, settings.originalFontSize * scale) >= maxWidth as real
  {
    ghost var steps;
    d, steps := DrawFitted(text, settings.originalFontSize * scale, maxWidth, autoScale, width);
  }

  /** Shrinking only ever makes a positive size smaller. */
  lemma {:induction false} ShrunkDecreases(size: real, k: nat)
    requires size > 0.0
    ensures 0.0 < Shrunk(size, k) <= size
    ensures k >= 1 ==> Shrunk(size, k) < size
  {
    if k >= 1 {
      ShrunkDecreases(size, k - 1);
    }
  }

  /**
   * After shrinking, the drawn text may be exactly maxWidth wide, while the first
   * test lets through only texts narrower than maxWidth: with a measure that gives
   * 200 at size 48 and 180 below it, a time is shrunk once.
   */
  lemma BoundaryWidthShrinks(width: (string, real) -> real, text: string)
    requires width(text, 48.0) == 200.0
    requires forall s: real :: s < 48.0 ==> width(text, s) == 180.0
    ensures ShrinkEnds(text, 48.0, 200, width)
    ensures width(text, Shrunk(48.0, 1)) <= 200.0 && !(width(text, 48.0) < 200.0)
  {
    assert Shrunk(48.0, 1) == 43.2;
  }
}
