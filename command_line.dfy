/** Command-line helpers: sorting input file names into experiments,
    reflections, parameters, images and unknown by their endings, and the
    fixed-width lines of the progress bar and of the "start/end of command"
    messages. The clock, the terminal test and the formatting of the elapsed
    time are inputs. */
module CommandLine {
  import opened Results

  // ---------------------------------------------------------------------
  // Input file classification
  // ---------------------------------------------------------------------

  predicate EndsWith(s: string, suffix: string)
  {
    |suffix| <= |s| && s[|s| - |suffix|..] == suffix
  }

  const ExperimentFileEndings: seq<string> := [".expt"]
  const ReflectionFileEndings: seq<string> := [".refl"]
  const ParameterFileEndings: seq<string> := [".params", ".phil"]
  const ImageFileEndings: seq<string> := [".h5", ".nxs", ".cbf", ".img"]
  const ImageCompression: seq<string> := ["", ".gz", ".bz2"]

  predicate EndsWithAny(s: string, endings: seq<string>)
  {
    exists e :: e in endings && EndsWith(s, e)
  }

  /** An image name ends in one of the image endings, optionally followed by a
      compression ending. */
  predicate IsImageName(s: string)
  {
    exists e, c :: e in ImageFileEndings && c in ImageCompression && EndsWith(s, e + c)
  }

  /** The names of s that satisfy p, in their order. */
  function Filter(s: seq<string>, p: string -> bool): (r: seq<string>)
    ensures forall x :: x in r <==> x in s && p(x)
    ensures forall x :: multiset(r)[x] == if p(x) then multiset(s)[x] else 0
    ensures |r| <= |s|
  {
    if s == [] then []
    else
      assert s == [s[0]] + s[1..];
      (if p(s[0]) then [s[0]] else []) + Filter(s[1..], p)
  }

  /** a is b with some elements left out and the rest in their order: the
      t-th element of a is element idx[t] of b, idx strictly increasing. */
  ghost predicate SubsequenceVia(a: seq<string>, b: seq<string>, idx: seq<nat>)
  {
    && |idx| == |a|
    && (forall t :: 0 <= t < |a| ==> idx[t] < |b| && a[t] == b[idx[t]])
    && (forall t, u :: 0 <= t < u < |idx| ==> idx[t] < idx[u])
  }

  ghost predicate IsSubsequence(a: seq<string>, b: seq<string>)
  {
    exists idx :: SubsequenceVia(a, b, idx)
  }

  /** idx holds exactly the positions of s whose name satisfies p. */
  ghost predicate PositionsOf(s: seq<string>, p: string -> bool, idx: seq<nat>)
  {
    forall t :: 0 <= t < |s| ==> (t in idx <==> p(s[t]))
  }

  /** The result of Filter sits at exactly the positions of s whose name satisfies p. */
  lemma {:induction false} FilterPositions(s: seq<string>, p: string -> bool) returns (idx: seq<nat>)
    ensures SubsequenceVia(Filter(s, p), s, idx)
    ensures PositionsOf(s, p, idx)
  {
    if s == [] {
      idx := [];
    } else {
      var tail := Filter(s[1..], p);
      var rest := FilterPositions(s[1..], p);
      var shifted := ShiftPositions(s, tail, rest);
      ShiftedPositionsOf(s, p, rest, shifted);
      if p(s[0]) {
        assert Filter(s, p) == [s[0]] + tail;
        idx := [0] + shifted;
        ConsPosition(s, tail, shifted);
      } else {
        assert Filter(s, p) == tail;
        idx := shifted;
      }
      FirstPositionOf(s, p, shifted, idx);
    }
  }

  /** Adding position 0 exactly when the first name satisfies p completes the positions. */
  lemma FirstPositionOf(s: seq<string>, p: string -> bool, shifted: seq<nat>, idx: seq<nat>)
    requires |s| > 0 && 0 !in shifted
    requires forall t :: 1 <= t < |s| ==> (t in shifted <==> p(s[t]))
    requires idx == if p(s[0]) then [0] + shifted else shifted
    ensures PositionsOf(s, p, idx)
  {
  }

  /** The positions of the tail, moved up by one, are the positions of s after the first. */
  lemma ShiftedPositionsOf(s: seq<string>, p: string -> bool, rest: seq<nat>, shifted: seq<nat>)
    requires |s| > 0 && PositionsOf(s[1..], p, rest)
    requires forall t :: 0 <= t < |s| ==> (t in shifted <==> t >= 1 && t - 1 in rest)
    ensures 0 !in shifted
    ensures forall t :: 1 <= t < |s| ==> (t in shifted <==> p(s[t]))
  {
    forall t | 1 <= t < |s|
      ensures t in shifted <==> p(s[t])
    {
      assert s[t] == s[1..][t - 1];
    }
  }

  /** Positions in the tail of b, moved up by one, are positions in b. */
  lemma ShiftPositions(b: seq<string>, a: seq<string>, idx: seq<nat>) returns (shifted: seq<nat>)
    requires |b| > 0 && SubsequenceVia(a, b[1..], idx)
    ensures SubsequenceVia(a, b, shifted)
    ensures forall t :: 0 <= t < |shifted| ==> shifted[t] == idx[t] + 1
    ensures forall t :: 0 <= t < |b| ==> (t in shifted <==> t >= 1 && t - 1 in idx)
  {
    shifted := seq(|idx|, t requires 0 <= t < |idx| => idx[t] + 1);
    forall t | 0 <= t < |b|
      ensures t in shifted <==> t >= 1 && t - 1 in idx
    {
      if t in shifted {
        var u :| 0 <= u < |shifted| && shifted[u] == t;
        assert idx[u] == t - 1;
      }
      if t >= 1 && t - 1 in idx {
        var u :| 0 <= u < |idx| && idx[u] == t - 1;
        assert shifted[u] == t;
      }
    }
  }

  /** Keeping b's first element in front of a subsequence of b that avoids
      it gives a subsequence of b. */
  lemma ConsPosition(b: seq<string>, a: seq<string>, idx: seq<nat>)
    requires |b| > 0 && SubsequenceVia(a, b, idx)
    requires forall t :: 0 <= t < |idx| ==> idx[t] >= 1
    ensures SubsequenceVia([b[0]] + a, b, [0] + idx)
  {
  }

  lemma FilterIsSubsequence(s: seq<string>, p: string -> bool)
    ensures IsSubsequence(Filter(s, p), s)
  {
    var idx := FilterPositions(s, p);
  }

  datatype FileTypes = FileTypes(
    experiments: seq<string>, reflections: seq<string>, parameters: seq<string>,
    images: seq<string>, unknown: seq<string>)

  /** OptionParser.guess_input_file_type. */
  function GuessInputFileType(filenames: seq<string>): (r: FileTypes)
    ensures forall f :: f in r.experiments <==> f in filenames && EndsWithAny(f, ExperimentFileEndings)
    ensures forall f :: f in r.reflections <==> f in filenames && EndsWithAny(f, ReflectionFileEndings)
    ensures forall f :: f in r.parameters <==> f in filenames && EndsWithAny(f, ParameterFileEndings)
    ensures forall f :: f in r.images <==> f in filenames && IsImageName(f)
    ensures forall f :: f in r.unknown <==>
      f in filenames && f !in r.experiments && f !in r.reflections && f !in r.parameters && f !in r.images
    ensures forall f :: multiset(r.experiments)[f] == if EndsWithAny(f, ExperimentFileEndings) then multiset(filenames)[f] else 0
    ensures forall f :: multiset(r.reflections)[f] == if EndsWithAny(f, ReflectionFileEndings) then multiset(filenames)[f] else 0
    ensures forall f :: multiset(r.parameters)[f] == if EndsWithAny(f, ParameterFileEndings) then multiset(filenames)[f] else 0
    ensures forall f :: multiset(r.images)[f] == if IsImageName(f) then multiset(filenames)[f] else 0
    ensures forall f :: multiset(r.unknown)[f] ==
                        if f in r.experiments || f in r.reflections || f in r.parameters || f in r.images then 0 else multiset(filenames)[f]
  {
    var experimentFiles := Filter(filenames, f => EndsWithAny(f, ExperimentFileEndings));
    var reflectionFiles := Filter(filenames, f => EndsWithAny(f, ReflectionFileEndings));
    var parameterFiles := Filter(filenames, f => EndsWithAny(f, ParameterFileEndings));
    var imageFiles := Filter(filenames, f => IsImageName(f));
    var unknown := Filter(filenames, f =>
      !(f in experimentFiles || f in reflectionFiles || f in parameterFiles || f in imageFiles));
    FileTypes(experimentFiles, reflectionFiles, parameterFiles, imageFiles, unknown)
  }

  /** Every category keeps the order of the input. */
  lemma CategoriesKeepOrder(filenames: seq<string>)
    ensures var r := GuessInputFileType(filenames);
      && IsSubsequence(r.experiments, filenames) && IsSubsequence(r.reflections, filenames)
      && IsSubsequence(r.parameters, filenames) && IsSubsequence(r.images, filenames)
      && IsSubsequence(r.unknown, filenames)
  {
    var r := GuessInputFileType(filenames);
    FilterIsSubsequence(filenames, f => EndsWithAny(f, ExperimentFileEndings));
    FilterIsSubsequence(filenames, f => EndsWithAny(f, ReflectionFileEndings));
    FilterIsSubsequence(filenames, f => EndsWithAny(f, ParameterFileEndings));
    FilterIsSubsequence(filenames, f => IsImageName(f));
    FilterIsSubsequence(filenames, f =>
      !(f in r.experiments || f in r.reflections || f in r.parameters || f in r.images));
  }

  /** The last two characters of a name that has a given ending of length at least 2. */
  function LastTwo(s: string): (char, char)
    requires |s| >= 2
  {
    (s[|s| - 2], s[|s| - 1])
  }

  lemma EndingFixesLastTwo(s: string, e: string)
    requires |e| >= 2 && EndsWith(s, e)
    ensures |s| >= 2 && LastTwo(s) == LastTwo(e)
  {
    assert s[|s| - |e|..][|e| - 2] == s[|s| - 2];
    assert s[|s| - |e|..][|e| - 1] == s[|s| - 1];
  }

  lemma ImageLastTwo(s: string)
    requires IsImageName(s)
    ensures |s| >= 2 && LastTwo(s) in {('h', '5'), ('x', 's'), ('b', 'f'), ('m', 'g'), ('g', 'z'), ('z', '2')}
  {
    var e, c :| e in ImageFileEndings && c in ImageCompression && EndsWith(s, e + c);
    EndingFixesLastTwo(s, e + c);
    if c == "" {
      assert e + c == e;
    }
  }

  lemma ExperimentLastTwo(s: string)
    requires EndsWithAny(s, ExperimentFileEndings)
    ensures |s| >= 2 && LastTwo(s) == ('p', 't')
  {
    var e :| e in ExperimentFileEndings && EndsWith(s, e);
    EndingFixesLastTwo(s, e);
  }

  lemma ReflectionLastTwo(s: string)
    requires EndsWithAny(s, ReflectionFileEndings)
    ensures |s| >= 2 && LastTwo(s) == ('f', 'l')
  {
    var e :| e in ReflectionFileEndings && EndsWith(s, e);
    EndingFixesLastTwo(s, e);
  }

  lemma ParameterLastTwo(s: string)
    requires EndsWithAny(s, ParameterFileEndings)
    ensures |s| >= 2 && LastTwo(s) in {('m', 's'), ('i', 'l')}
  {
    var e :| e in ParameterFileEndings && EndsWith(s, e);
    EndingFixesLastTwo(s, e);
  }

  /** No name has endings of two different kinds. */
  lemma EndingKindsDisjoint(s: string)
    ensures !(EndsWithAny(s, ExperimentFileEndings) && EndsWithAny(s, ReflectionFileEndings))
    ensures !(EndsWithAny(s, ExperimentFileEndings) && EndsWithAny(s, ParameterFileEndings))
    ensures !(EndsWithAny(s, ExperimentFileEndings) && IsImageName(s))
    ensures !(EndsWithAny(s, ReflectionFileEndings) && EndsWithAny(s, ParameterFileEndings))
    ensures !(EndsWithAny(s, ReflectionFileEndings) && IsImageName(s))
    ensures !(EndsWithAny(s, ParameterFileEndings) && IsImageName(s))
  {
    if EndsWithAny(s, ExperimentFileEndings) { ExperimentLastTwo(s); }
    if EndsWithAny(s, ReflectionFileEndings) { ReflectionLastTwo(s); }
    if EndsWithAny(s, ParameterFileEndings) { ParameterLastTwo(s); }
    if IsImageName(s) { ImageLastTwo(s); }
  }

  /** Every input name lands in exactly one of the five lists. */
  lemma ExactlyOneCategory(filenames: seq<string>, f: string)
    requires f in filenames
    ensures var r := GuessInputFileType(filenames);
      (if f in r.experiments then 1 else 0) + (if f in r.reflections then 1 else 0) +
      (if f in r.parameters then 1 else 0) + (if f in r.images then 1 else 0) +
      (if f in r.unknown then 1 else 0) == 1
  {
    EndingKindsDisjoint(f);
  }

  // ---------------------------------------------------------------------
  // Python string and number helpers
  // ---------------------------------------------------------------------

  /** `c * n` on a one-character string: empty when n is not positive. */
  function Repeat(c: char, n: int): (r: string)
    ensures |r| == if n > 0 then n else 0
    ensures forall i :: 0 <= i < |r| ==> r[i] == c
    decreases n
  {
    if n <= 0 then "" else [c] + Repeat(c, n - 1)
  }

  /** `s[:m]`: the first m characters, or for negative m all but the last -m. */
  function SliceTo(s: string, m: int): (r: string)
    ensures |r| == if m >= 0 then (if m < |s| then m else |s|) else (if |s| + m > 0 then |s| + m else 0)
    ensures r == s[..|r|]
  {
    if m >= 0 then (if m < |s| then s[..m] else s)
    else if |s| + m > 0 then s[..|s| + m] else ""
  }

  function DigitChar(d: nat): char
    requires d < 10
  {
    "0123456789"[d]
  }

  /** `str(n)` for a non-negative integer. */
  function NatToString(n: nat): (r: string)
    ensures |r| >= 1
    ensures forall i :: 0 <= i < |r| ==> '0' <= r[i] <= '9'
  {
    if n < 10 then [DigitChar(n)] else NatToString(n / 10) + [DigitChar(n % 10)]
  }

  /** `int(x)` on a float: rounds toward zero. */
  function Trunc(x: real): (r: int)
    ensures x >= 0.0 ==> r as real <= x < r as real + 1.0
    ensures x < 0.0 ==> r as real - 1.0 < x <= r as real
  {
    if x >= 0.0 then x.Floor else -((-x).Floor)
  }

  /** `math.ceil(x)`. */
  function Ceil(x: real): (r: int)
    ensures r as real - 1.0 < x <= r as real
  {
    -((-x).Floor)
  }

  // ---------------------------------------------------------------------
  // Progress bar
  // ---------------------------------------------------------------------

  /** A percentage clamped to [0, 100]. */
  function ClampPercent(percent: int): (p: int)
    ensures 0 <= p <= 100
    ensures 0 <= percent <= 100 ==> p == percent
  {
    if percent < 0 then 0 else if percent > 100 then 100 else percent
  }

  /** The spinner character for a clamped percentage: `"-\|/"[percent % 4]`. */
  function SpinnerChar(percent: int): (c: char)
    requires 0 <= percent <= 100
    ensures c in "-\\|/"
  {
    var index := percent % 4;
    assert 0 <= index < 4;
    "-\\|/"[index]
  }

  /** The split of a bar of barLength cells at a clamped percentage into the
      filled part and the padding. */
  function BarSplit(percent: int, barLength: int): (split: (int, int))
    requires 0 <= percent <= 100
    ensures split.0 + split.1 == barLength
    ensures barLength >= 0 ==> 0 <= split.0 <= barLength && 0 <= split.1
    ensures barLength >= 0 ==> split.0 * 100 <= percent * barLength < (split.0 + 1) * 100
    ensures barLength < 0 ==> barLength <= split.0 <= 0 && split.1 <= 0
  {
    var product := percent * barLength;
    ScaledBounds(percent, barLength);
    var nChar := if product >= 0 then product / 100 else -((-product) / 100);
    (nChar, barLength - nChar)
  }

  /** `percent * barLength` lies between 0 and `100 * barLength`. */
  lemma ScaledBounds(percent: int, barLength: int)
    requires 0 <= percent <= 100
    ensures barLength >= 0 ==> 0 <= percent * barLength <= 100 * barLength
    ensures barLength < 0 ==> 100 * barLength <= percent * barLength <= 0
  {
    if barLength >= 0 {
      assert percent * barLength <= 100 * barLength by {
        assert (100 - percent) * barLength >= 0;
      }
    } else {
      assert percent * barLength >= 100 * barLength by {
        assert (100 - percent) * (-barLength) >= 0;
      }
    }
  }

  /** A non-empty string keeps its first character when something is appended. */
  lemma AppendKeepsHead(a: string, b: string)
    requires |a| >= 1
    ensures |a + b| == |a| + |b| && (a + b)[0] == a[0]
  {
  }

  /** The bar itself: brackets around nChar '=' cells, the '>' head and nSpace
      blanks; negative counts give no cells. Where the split of a bar of length
      bl is drawn, it is five characters longer than bl, or just five when bl
      is negative. */
  function BarText(nChar: int, nSpace: int): (s: string)
    ensures |s| == 5 + (if nChar > 0 then nChar else 0) + (if nSpace > 0 then nSpace else 0)
  {
    "[ " + Repeat('=', nChar) + ">" + Repeat(' ', nSpace) + " ]"
  }

  /** `f"{percent: >3}"`: right-aligned in three characters. */
  function PadLeft3(s: string): (r: string)
    ensures |r| == if |s| < 3 then 3 else |s|
  {
    Repeat(' ', 3 - |s|) + s
  }

  /** The timer's estimate of the seconds left. */
  function Estimate(diffTime: real, percent: real, lastPerc: real): (seconds: real)
    ensures percent == 100.0 || percent == lastPerc ==> seconds == 0.0
    ensures diffTime >= 0.0 && lastPerc < percent <= 100.0 ==> seconds >= 0.0
  {
    if percent - lastPerc == 0.0 then 0.0 else diffTime * (100.0 - percent) / (percent - lastPerc)
  }

  /** From the start (no progress yet), with a clock that does not run
      backwards, the estimate is never negative, and it is zero at 100%. */
  lemma EstimateFromStart(diffTime: real, percent: real)
    requires diffTime >= 0.0 && 0.0 <= percent <= 100.0
    ensures Estimate(diffTime, percent, 0.0) >= 0.0
    ensures percent == 100.0 ==> Estimate(diffTime, percent, 0.0) == 0.0
  {
    if percent != 0.0 {
      assert diffTime * (100.0 - percent) >= 0.0;
    }
  }

  function ClampReal(percent: real): (p: real)
    ensures 0.0 <= p <= 100.0
  {
    if percent < 0.0 then 0.0 else if percent > 100.0 then 100.0 else percent
  }

  /** ProgressBarTimer: the time and percentage it was created with, and the
      last estimate of the seconds left (-1 before any estimate). */
  class ProgressBarTimer {
    var lastTime: real
    var lastPerc: real
    var updatePeriod: real
    var nSecondsLeft: real

    constructor (now: real)
      ensures lastTime == now && lastPerc == 0.0 && updatePeriod == 0.5 && nSecondsLeft == -1.0
    {
      lastTime := now;
      lastPerc := 0.0;
      updatePeriod := 0.5;
      nSecondsLeft := -1.0;
    }

    function ElapsedTime(now: real): real
      reads this
    {
      now - lastTime
    }

    /** update: re-estimates only once the update period has passed since the
        timer was created, or at 100%; otherwise keeps the last estimate. */
    method Update(percent: real, now: real) returns (secs: real)
      modifies this`nSecondsLeft
      ensures secs == nSecondsLeft
      ensures (now - lastTime >= updatePeriod || ClampReal(percent) >= 100.0) ==>
        nSecondsLeft == Estimate(now - lastTime, ClampReal(percent), lastPerc)
      ensures !(now - lastTime >= updatePeriod || ClampReal(percent) >= 100.0) ==>
        nSecondsLeft == old(nSecondsLeft)
    {
      var currTime := now;
      var diffTime := currTime - lastTime;
      var p := percent;
      if p < 0.0 {
        p := 0.0;
      }
      if p > 100.0 {
        p := 100.0;
      }
      assert p == ClampReal(percent);
      if diffTime >= updatePeriod || p >= 100.0 {
        var diffPerc := p - lastPerc;
        if diffPerc == 0.0 {
          nSecondsLeft := 0.0;
        } else {
          nSecondsLeft := diffTime * (100.0 - p) / diffPerc;
        }
        assert nSecondsLeft == Estimate(diffTime, p, lastPerc);
      }
      secs := nSecondsLeft;
    }
  }

  /** A title is shown only when it is given and not empty. */
  predicate Truthy(s: Option<string>)
  {
    s.Some? && s.value != ""
  }

  class ProgressBar {
    var title: Option<string>
    const indent: int
    const spinner: bool
    const estimateTime: bool
    const bar: bool
    const length: int
    const timer: ProgressBarTimer

    constructor (title: Option<string>, spinner: bool, bar: bool, estimateTime: bool, indent: int, length: int, now: real)
      ensures this.title == title && this.spinner == spinner && this.bar == bar
      ensures this.estimateTime == estimateTime && this.indent == indent && this.length == length
      ensures fresh(timer) && timer.lastTime == now && timer.lastPerc == 0.0 && timer.nSecondsLeft == -1.0
    {
      this.title := title;
      this.indent := indent;
      this.spinner := spinner;
      this.estimateTime := estimateTime;
      this.bar := bar;
      this.length := length;
      timer := new ProgressBarTimer(now);
    }

    /** update: nothing is written when the output is not a terminal. Otherwise
        the line starts with a carriage return, and with a bar it is exactly
        one character longer than `length` when the bar fits (barLength >= 0),
        and longer by the overflow when it does not. */
    method Update(fpercent: real, isatty: bool, now: real) returns (out: Option<string>, ghost barLength: int)
      modifies timer`nSecondsLeft
      ensures !isatty ==> out == None && timer.nSecondsLeft == old(timer.nSecondsLeft)
      ensures isatty ==> out.Some? && |out.value| >= 1 && out.value[0] == '\r'
      ensures isatty && bar ==> |out.value| == length + 1 + (if barLength < 0 then -barLength else 0)
    {
      barLength := 0;
      if !isatty {
        return None, barLength;
      }

      var percent := Trunc(fpercent);
      if percent < 0 {
        percent := 0;
      }
      if percent > 100 {
        percent := 100;
      }

      var rightStr := "";
      var leftStr := "";
      leftStr := "\r";
      AppendKeepsHead(leftStr, Repeat(' ', indent));
      leftStr := leftStr + Repeat(' ', indent);

      if Truthy(title) {
        AppendKeepsHead(leftStr + title.value, ": ");
        leftStr := leftStr + title.value + ": ";
      }

      AppendKeepsHead(leftStr + PadLeft3(NatToString(percent)), "%");
      leftStr := leftStr + PadLeft3(NatToString(percent)) + "%";

      if spinner {
        AppendKeepsHead(leftStr, " ");
        leftStr := leftStr + " ";
        AppendKeepsHead(leftStr + "[ " + [SpinnerChar(percent)], " ]");
        leftStr := leftStr + "[ " + [SpinnerChar(percent)] + " ]";
      }

      if estimateTime {
        var nSecondsLeft := timer.Update(fpercent, now);
        var shown := if nSecondsLeft < 0.0 then "?" else NatToString(Ceil(nSecondsLeft));
        rightStr := " " + "est: " + shown + "s" + rightStr;
      }

      if bar {
        var bl := length - (|leftStr| + |rightStr|) - 5;
        barLength := bl;
        var (nChar, nSpace) := BarSplit(percent, bl);
        ghost var widths := |leftStr| + |rightStr|;
        AppendKeepsHead(leftStr, " ");
        leftStr := leftStr + " ";
        var barStr := BarText(nChar, nSpace);
        assert |barStr| == 5 + (if bl >= 0 then bl else 0);
        AppendKeepsHead(leftStr, barStr);
        leftStr := leftStr + barStr;
        assert |leftStr| + |rightStr| == widths + 6 + (if bl >= 0 then bl else 0);
      }

      AppendKeepsHead(leftStr, rightStr);
      out := Some(leftStr + rightStr);
    }

    /** finished: a non-empty message becomes the title; the line written is
        the message padded by PadLine, ended by a newline and, on a terminal,
        preceded by a carriage return. */
    method Finished(message: Option<string>, now: real, formatFixed2: real -> string, isatty: bool) returns (out: string)
      modifies this`title
      ensures Truthy(message) ==> title == message
      ensures !Truthy(message) ==> title == old(title)
      ensures var start := if isatty then 1 else 0;
        && |out| >= start + 1 && out[|out| - 1] == '\n' && (isatty ==> out[0] == '\r')
        && PaddedLine(out[start..|out| - 1], if Truthy(message) then message.value else "", indent, length,
                      estimateTime, formatFixed2(timer.ElapsedTime(now)) + "s")
      ensures indent >= 0 && MessageRoom(indent, length, estimateTime, formatFixed2(timer.ElapsedTime(now)) + "s") >= 0 ==>
        |out| == length + (if isatty then 2 else 1)
    {
      var msg: string;
      if Truthy(message) {
        title := message;
        msg := message.value;
      } else {
        msg := "";
      }
      var timeString := formatFixed2(timer.ElapsedTime(now)) + "s";
      var line := PadLine(msg, indent, length, estimateTime, timeString);
      out := Terminated(line, isatty);
      assert out[(if isatty then 1 else 0)..|out| - 1] == line;
    }
  }

  /** How far the message may run: room for the time string and one dot when
      the time is printed. */
  function MessageRoom(indent: int, length: int, withTime: bool, timeString: string): int
  {
    if withTime then length - indent - |timeString| - 1 else length - indent
  }

  function Indent(indent: int): nat
  {
    if indent > 0 then indent else 0
  }

  /** The end-of-command line of ProgressBar.finished and Command.end: the
      indent, the message cut to its room, dots up to the room (one more when
      the time follows), and the time string when it is printed. */
  ghost predicate PaddedLine(line: string, message: string, indent: int, length: int, withTime: bool, timeString: string)
  {
    var room := MessageRoom(indent, length, withTime, timeString);
    var cut := SliceTo(message, room);
    var tail := if withTime then timeString else "";
    var dotsEnd := |line| - |tail|;
    && Indent(indent) + |cut| <= dotsEnd <= |line|
    && line[..Indent(indent)] == Repeat(' ', indent)
    && line[Indent(indent)..Indent(indent) + |cut|] == cut
    && (forall i :: Indent(indent) + |cut| <= i < dotsEnd ==> line[i] == '.')
    && line[dotsEnd..] == tail
    && dotsEnd - Indent(indent) == if withTime && room + 1 >= |cut| then room + 1
                                   else if !withTime && room >= |cut| then room
                                   else |cut|
  }

  /** An end line as written: a newline after it and, on a terminal, a
      carriage return before it. */
  function Terminated(line: string, isatty: bool): (out: string)
    ensures var start := if isatty then 1 else 0;
      && |out| == |line| + start + 1 && out[|out| - 1] == '\n' && (isatty ==> out[0] == '\r')
      && out[start..|out| - 1] == line
  {
    if isatty then "\r" + line + "\n" else line + "\n"
  }

  /** Builds the end-of-command line; when the indent and the room for the
      message are not negative it is exactly `length` characters long. */
  method PadLine(message: string, indent: int, length: int, withTime: bool, timeString: string) returns (line: string)
    ensures PaddedLine(line, message, indent, length, withTime, timeString)
    ensures indent >= 0 && MessageRoom(indent, length, withTime, timeString) >= 0 ==> |line| == length
  {
    var maxLength := MessageRoom(indent, length, withTime, timeString);
    var s := SliceTo(message, maxLength);
    var cut := s;
    var dotLength := (if withTime then 1 else 0) + maxLength - |s|;
    s := Repeat(' ', indent) + s;
    s := s + Repeat('.', dotLength);
    ghost var dotsEnd := |s|;
    assert forall i :: Indent(indent) + |cut| <= i < dotsEnd ==> s[i] == Repeat('.', dotLength)[i - Indent(indent) - |cut|];
    if withTime {
      s := s + timeString;
      assert s[..dotsEnd] == Repeat(' ', indent) + cut + Repeat('.', dotLength);
    }
    line := s;
  }

  /** Command: class-level settings and the start time of the last command. */
  class Command {
    var indent: int
    var maxLength: int
    var printTime: bool
    var startTime: Option<real>

    constructor ()
      ensures indent == 0 && maxLength == 80 && printTime && startTime == None
    {
      indent := 0;
      maxLength := 80;
      printTime := true;
      startTime := None;
    }

    /** start: records the start time; on a terminal writes the indent, the
        message cut to leave room for "...", and "...". */
    method Start(message: string, now: real, isatty: bool) returns (out: Option<string>)
      modifies this`startTime
      ensures startTime == Some(now)
      ensures !isatty ==> out == None
      ensures isatty ==> out == Some(Repeat(' ', indent) + SliceTo(message, maxLength - indent - 3) + "...")
      ensures isatty && indent >= 0 && maxLength - indent - 3 >= 0 ==> |out.value| <= maxLength
    {
      startTime := Some(now);
      if !isatty {
        return None;
      }
      var room := maxLength - indent - 3;
      var s := SliceTo(message, room);
      s := Repeat(' ', indent) + s + "...";
      out := Some(s);
    }

    /** end: the padded end line (with the time since start when the time is
        printed), ended by a newline and, on a terminal, preceded by a carriage
        return; asking for the time before any start fails, as the class
        attribute is then missing. */
    method End(message: string, now: real, formatFixed2: real -> string, isatty: bool) returns (out: Option<string>)
      ensures out.None? <==> printTime && startTime.None?
      ensures out.Some? ==>
        var timeString := if printTime then formatFixed2(now - startTime.value) + "s" else "";
        var start := if isatty then 1 else 0;
        && |out.value| >= start + 1 && out.value[|out.value| - 1] == '\n' && (isatty ==> out.value[0] == '\r')
        && PaddedLine(out.value[start..|out.value| - 1], message, indent, maxLength, printTime, timeString)
        && (indent >= 0 && MessageRoom(indent, maxLength, printTime, timeString) >= 0 ==>
              |out.value| == maxLength + (if isatty then 2 else 1))
    {
      var timeString := "";
      if printTime {
        if startTime.None? {
          return None;
        }
        timeString := formatFixed2(now - startTime.value) + "s";
      }
      var line := PadLine(message, indent, maxLength, printTime, timeString);
      out := Some(Terminated(line, isatty));
    }
  }
}
