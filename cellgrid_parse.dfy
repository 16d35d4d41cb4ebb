// The line format of the stationary-charge file: each line must split on
// whitespace into exactly three fields, x, y and q, and the charge must fall
// on the grid.  Loading stops at the first line that fails, reporting the
// line index plus two.  Number parsing itself is a parameter.

module CellGridParse {
  import opened Charges
  import opened Wrappers

  /** Characters with the Unicode White_Space property, on which fields are split. */
  predicate IsWhitespace(ch: char)
  {
    ch == ' ' || ('\t' <= ch <= '\r') || ch == '\U{85}' || ch == '\U{A0}' || ch == '\U{1680}'
    || ('\U{2000}' <= ch <= '\U{200A}') || ch == '\U{2028}' || ch == '\U{2029}'
    || ch == '\U{202F}' || ch == '\U{205F}' || ch == '\U{3000}'
  }

  /** A field: non-empty and free of whitespace. */
  predicate IsField(w: string)
  {
    |w| > 0 && forall j :: 0 <= j < |w| ==> !IsWhitespace(w[j])
  }

  /** The longest prefix of `s` without whitespace. */
  function Word(s: string): (w: string)
    ensures |w| <= |s| && w == s[..|w|]
    ensures forall j :: 0 <= j < |w| ==> !IsWhitespace(w[j])
    ensures |w| == |s| || IsWhitespace(s[|w|])
  {
    if |s| == 0 || IsWhitespace(s[0]) then [] else [s[0]] + Word(s[1..])
  }

  /** The whitespace-separated fields of a line, in order. */
  function Words(s: string): (ws: seq<string>)
    ensures forall i :: 0 <= i < |ws| ==> IsField(ws[i])
    decreases |s|
  {
    if |s| == 0 then []
    else if IsWhitespace(s[0]) then Words(s[1..])
    else
      var w := Word(s);
      [w] + Words(s[|w|..])
  }

  /** Fields joined with single spaces. */
  function Join(ws: seq<string>): string
  {
    if |ws| == 0 then [] else if |ws| == 1 then ws[0] else ws[0] + " " + Join(ws[1..])
  }

  lemma {:induction false} WordOfField(w: string, rest: string)
    requires forall j :: 0 <= j < |w| ==> !IsWhitespace(w[j])
    requires rest == [] || IsWhitespace(rest[0])
    ensures Word(w + rest) == w
    decreases |w|
  {
    if |w| == 0 {
      assert w + rest == rest;
    } else {
      assert (w + rest)[1..] == w[1..] + rest;
      WordOfField(w[1..], rest);
    }
  }

  /** Splitting fields joined with single spaces gives the fields back. */
  lemma {:induction false} WordsOfJoin(ws: seq<string>)
    requires forall i :: 0 <= i < |ws| ==> IsField(ws[i])
    ensures Words(Join(ws)) == ws
    decreases |ws|
  {
    if |ws| == 1 {
      WordsOfField(ws[0]);
    } else if |ws| > 1 {
      var s := Join(ws);
      var w, rest := ws[0], " " + Join(ws[1..]);
      assert s == w + rest;
      WordOfField(w, rest);
      WordsCons(s);
      assert s[|w|..] == rest;
      assert rest[1..] == Join(ws[1..]);
      WordsOfJoin(ws[1..]);
      assert [w] + ws[1..] == ws;
    }
  }

  /** A single field splits into itself. */
  lemma WordsOfField(w: string)
    requires IsField(w)
    ensures Words(w) == [w]
  {
    WordOfField(w, []);
    assert w + [] == w;
    assert w[|w|..] == [];
  }

  /**
   * Splitting at any whitespace character splits the fields: the fields of
   * s are those before position k followed by those after it.  With
   * WordsOfField and Words("") == [] this determines the fields of every
   * line: they are its maximal whitespace-free runs, in order.
   */
  lemma {:induction false} WordsSplit(s: string, k: nat)
    requires k < |s| && IsWhitespace(s[k])
    ensures Words(s) == Words(s[..k]) + Words(s[k + 1..])
    decreases |s|, 1
  {
    if k == 0 {
      assert s[..0] == [];
    } else if IsWhitespace(s[0]) {
      WordsSplitAfterGap(s, k);
    } else {
      WordsSplitAfterWord(s, k);
    }
  }

  /** WordsSplit when s starts with whitespace before position k. */
  lemma {:induction false} WordsSplitAfterGap(s: string, k: nat)
    requires 0 < k < |s| && IsWhitespace(s[k]) && IsWhitespace(s[0])
    ensures Words(s) == Words(s[..k]) + Words(s[k + 1..])
    decreases |s|, 0
  {
    var t := s[1..];
    WordsSplit(t, k - 1);
    assert t[..k - 1] == s[..k][1..];
    assert t[k..] == s[k + 1..];
  }

  /** The leading field ends at or before any whitespace character. */
  lemma WordWithin(s: string, k: nat)
    requires k < |s| && IsWhitespace(s[k])
    ensures |Word(s)| <= k
  {
  }

  /** A prefix that contains the leading field has the same leading field. */
  lemma WordOfPrefix(s: string, k: nat)
    requires |Word(s)| <= k <= |s|
    ensures Word(s[..k]) == Word(s)
  {
    var w := Word(s);
    var rest := s[|w|..k];
    assert s[..k] == w + rest;
    WordOfField(w, rest);
  }

  /** A line that starts with a field splits into that field and the fields of the rest. */
  lemma WordsCons(s: string)
    requires |s| > 0 && !IsWhitespace(s[0])
    ensures Words(s) == [Word(s)] + Words(s[|Word(s)|..])
  {
  }

  /** WordsSplit when s starts with a field that ends at or before position k. */
  lemma {:induction false} WordsSplitAfterWord(s: string, k: nat)
    requires 0 < k < |s| && IsWhitespace(s[k]) && !IsWhitespace(s[0])
    ensures Words(s) == Words(s[..k]) + Words(s[k + 1..])
    decreases |s|, 0
  {
    var w := Word(s);
    WordWithin(s, k);
    WordOfPrefix(s, k);
    var m := |w|;
    WordsCons(s);
    WordsCons(s[..k]);
    SplitSlices(s, m, k);
    WordsSplit(s[m..], k - m);
    Regroup(w, Words(s), Words(s[..k]), Words(s[m..]), Words(s[..k][m..]), Words(s[k + 1..]));
  }
  /** The slices of the split step: cutting at m and then at k is cutting at k and then at m. */
  lemma SplitSlices(s: string, m: nat, k: nat)
    requires m <= k < |s|
    ensures s[..k][m..] == s[m..][..k - m]
    ensures s[m..][k - m] == s[k]
    ensures s[m..][k - m + 1..] == s[k + 1..]
  {
  }

  /** The list algebra of the split step: a head, a split tail, and the same head before the first part. */
  lemma Regroup<T>(w: T, all: seq<T>, front: seq<T>, tail: seq<T>, before: seq<T>, after: seq<T>)
    requires all == [w] + tail && front == [w] + before && tail == before + after
    ensures all == front + after
  {
  }



  /** Why loading the stationary-charge file stopped. */
  datatype LoadError =
    | FieldCount(line: nat)   // the line does not have exactly three fields
    | BadX(line: nat)         // x is not an unsigned integer
    | BadY(line: nat)         // y is not an unsigned integer
    | BadQ(line: nat)         // q is not a number
    | OutsideGrid             // (x, y) is not a cell of the grid

  /** The line number reported for the line at index i. */
  function Reported(i: nat): nat
  {
    i + 2
  }

  /** The three fields of line i, parsed with the given number parsers. */
  function ParseLine(line: string, i: nat, parseIndex: string -> Option<nat>, parseReal: string -> Option<real>)
    : (r: Result<StationaryCharge, LoadError>)
    ensures r.Success? ==> |Words(line)| == 3
    ensures r.Success? ==> parseIndex(Words(line)[0]) == Some(r.value.x) && parseIndex(Words(line)[1]) == Some(r.value.y)
    ensures r.Success? ==> parseReal(Words(line)[2]) == Some(r.value.q)
    ensures r.Failure? ==> !r.error.OutsideGrid? && r.error.line == Reported(i)
    ensures var parts := Words(line);
      |parts| == 3 && parseIndex(parts[0]).Some? && parseIndex(parts[1]).Some? && parseReal(parts[2]).Some? ==>
        r == Success(StationaryCharge(parseIndex(parts[0]).value, parseIndex(parts[1]).value, parseReal(parts[2]).value))
  {
    var parts := Words(line);
    if |parts| != 3 then Failure(FieldCount(Reported(i)))
    else match parseIndex(parts[0])
      case None => Failure(BadX(Reported(i)))
      case Some(x) =>
        match parseIndex(parts[1])
        case None => Failure(BadY(Reported(i)))
        case Some(y) =>
          match parseReal(parts[2])
          case None => Failure(BadQ(Reported(i)))
          case Some(q) => Success(StationaryCharge(x, y, q))
  }

  /** A parsed line is accepted only when its charge lies on the w by h grid. */
  function LoadLine(line: string, i: nat, w: nat, h: nat, parseIndex: string -> Option<nat>, parseReal: string -> Option<real>)
    : (r: Result<StationaryCharge, LoadError>)
    ensures r.Success? ==> r.value.x < w && r.value.y < h && ParseLine(line, i, parseIndex, parseReal) == r
    ensures r.Failure? && !r.error.OutsideGrid? ==> ParseLine(line, i, parseIndex, parseReal) == r
    ensures r.Failure? && r.error.OutsideGrid? ==> ParseLine(line, i, parseIndex, parseReal).Success?
    ensures var p := ParseLine(line, i, parseIndex, parseReal);
      p.Success? ==> (r.Success? <==> p.value.x < w && p.value.y < h)
  {
    match ParseLine(line, i, parseIndex, parseReal)
    case Failure(e) => Failure(e)
    case Success(c) => if c.y < h && c.x < w then Success(c) else Failure(OutsideGrid)
  }

  /** Every line in order, stopping at the first that fails. */
  function LoadCharges(lines: seq<string>, w: nat, h: nat, parseIndex: string -> Option<nat>, parseReal: string -> Option<real>)
    : (r: Result<seq<StationaryCharge>, LoadError>)
    ensures r.Success? ==> |r.value| == |lines|
    ensures r.Success? ==> forall k :: 0 <= k < |r.value| ==> r.value[k].x < w && r.value[k].y < h
    decreases |lines|
  {
    if |lines| == 0 then Success([])
    else
      var n := |lines| - 1;
      match LoadCharges(lines[..n], w, h, parseIndex, parseReal)
      case Failure(e) => Failure(e)
      case Success(cs) =>
        match LoadLine(lines[n], n, w, h, parseIndex, parseReal)
        case Failure(e) => Failure(e)
        case Success(c) => Success(cs + [c])
  }

  /** A failing line after a clean prefix decides the outcome of the whole load. */
  lemma FailsAt(lines: seq<string>, i: nat, w: nat, h: nat, parseIndex: string -> Option<nat>, parseReal: string -> Option<real>)
    requires i < |lines|
    requires LoadCharges(lines[..i], w, h, parseIndex, parseReal).Success?
    requires LoadLine(lines[i], i, w, h, parseIndex, parseReal).Failure?
    ensures LoadCharges(lines, w, h, parseIndex, parseReal) == Failure(LoadLine(lines[i], i, w, h, parseIndex, parseReal).error)
  {
    LoadedInOrder(lines[..i], w, h, parseIndex, parseReal);
    assert forall j :: 0 <= j < i ==> lines[..i][j] == lines[j];
    StopsAtFirstBadLine(lines, i, w, h, parseIndex, parseReal);
  }

  /** Loading one more line extends the charges by that line's charge, or fails with its error. */
  lemma LoadNext(lines: seq<string>, i: nat, w: nat, h: nat, parseIndex: string -> Option<nat>, parseReal: string -> Option<real>)
    requires i < |lines|
    requires LoadCharges(lines[..i], w, h, parseIndex, parseReal).Success?
    ensures var prev := LoadCharges(lines[..i], w, h, parseIndex, parseReal).value;
      LoadCharges(lines[..i + 1], w, h, parseIndex, parseReal) ==
        match LoadLine(lines[i], i, w, h, parseIndex, parseReal)
        case Failure(e) => Failure(e)
        case Success(c) => Success(prev + [c])
  {
    assert lines[..i + 1][..i] == lines[..i];
  }

  /** A line without exactly three fields is refused with its reported line number. */
  lemma WrongFieldCount(line: string, i: nat, w: nat, h: nat, parseIndex: string -> Option<nat>, parseReal: string -> Option<real>)
    requires |Words(line)| != 3
    ensures LoadLine(line, i, w, h, parseIndex, parseReal) == Failure(FieldCount(i + 2))
  {
  }

  /**
   * A successful load holds one charge per line, in file order, each the
   * line's own parse and each on the grid.
   */
  lemma {:induction false} LoadedInOrder(lines: seq<string>, w: nat, h: nat, parseIndex: string -> Option<nat>, parseReal: string -> Option<real>)
    requires LoadCharges(lines, w, h, parseIndex, parseReal).Success?
    ensures var cs := LoadCharges(lines, w, h, parseIndex, parseReal).value;
      |cs| == |lines| &&
      (forall i :: 0 <= i < |lines| ==> LoadLine(lines[i], i, w, h, parseIndex, parseReal) == Success(cs[i])) &&
      (forall i :: 0 <= i < |cs| ==> cs[i].x < w && cs[i].y < h)
    decreases |lines|
  {
    if |lines| > 0 {
      var n := |lines| - 1;
      LoadedInOrder(lines[..n], w, h, parseIndex, parseReal);
    }
  }

  /** When every line loads, so does the file. */
  lemma {:induction false} AllLinesLoad(lines: seq<string>, w: nat, h: nat, parseIndex: string -> Option<nat>, parseReal: string -> Option<real>)
    requires forall i :: 0 <= i < |lines| ==> LoadLine(lines[i], i, w, h, parseIndex, parseReal).Success?
    ensures LoadCharges(lines, w, h, parseIndex, parseReal).Success?
    decreases |lines|
  {
    if |lines| > 0 {
      var n := |lines| - 1;
      AllLinesLoad(lines[..n], w, h, parseIndex, parseReal);
    }
  }

  /** Loading fails with the error of the first failing line, whatever follows it. */
  lemma {:induction false} StopsAtFirstBadLine(lines: seq<string>, k: nat, w: nat, h: nat,
                                               parseIndex: string -> Option<nat>, parseReal: string -> Option<real>)
    requires k < |lines|
    requires forall j :: 0 <= j < k ==> LoadLine(lines[j], j, w, h, parseIndex, parseReal).Success?
    requires LoadLine(lines[k], k, w, h, parseIndex, parseReal).Failure?
    ensures LoadCharges(lines, w, h, parseIndex, parseReal) == Failure(LoadLine(lines[k], k, w, h, parseIndex, parseReal).error)
    decreases |lines|
  {
    var n := |lines| - 1;
    if k == n {
      AllLinesLoad(lines[..n], w, h, parseIndex, parseReal);
    } else {
      StopsAtFirstBadLine(lines[..n], k, w, h, parseIndex, parseReal);
    }
  }
}
