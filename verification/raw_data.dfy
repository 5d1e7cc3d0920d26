/**
 * `display_raw`: a cursor into the filtered frame that serves five rows per
 * "yes".  The user's answers are the sequence of lines typed at the prompt.
 */
module RawData {
  import opened Seqs
  import opened Text
  import opened Dataset

  const PageSize: nat := 5

  /** How the paginator stopped. */
  datatype Outcome =
    | Declined     // a non-"yes" answer: return without a message
    | Exhausted    // cursor reached the end: "There is no more raw data" is printed
    | InputEnded   // the answers ran out while rows remained (Python's `input` raises `EOFError`)

  /**
   * `input(...).lower() == 'yes'`: the user asked for more.  Spelled out letter
   * by letter; `YesIsLowerYes` shows it is the lower-case comparison.
   */
  predicate IsYes(answer: string)
  {
    && |answer| == 3
    && LowerChar(answer[0]) == 'y'
    && LowerChar(answer[1]) == 'e'
    && LowerChar(answer[2]) == 's'
  }

  /** An answer is a "yes" exactly when its lower-case form is "yes". */
  lemma YesIsLowerYes(answer: string)
    ensures IsYes(answer) <==> Lower(answer) == "yes"
  {
    if Lower(answer) == "yes" {
      assert Lower(answer)[0] == 'y' && Lower(answer)[1] == 'e' && Lower(answer)[2] == 's';
    }
    if IsYes(answer) {
      assert Lower(answer) == [LowerChar(answer[0]), LowerChar(answer[1]), LowerChar(answer[2])];
    }
  }

  /** The pages shown, in order, and how the session ended. */
  datatype Session = Session(pages: seq<seq<Row>>, outcome: Outcome)

  function MinNat(a: nat, b: nat): nat { if a <= b then a else b }

  /** `df[start:start + 5]`: positional slice, clipped at the end of the frame. */
  function Window(rows: seq<Row>, start: nat): (w: seq<Row>)
    ensures |w| <= PageSize
    ensures start < |rows| ==> |w| == MinNat(PageSize, |rows| - start) > 0
  {
    rows[MinNat(start, |rows|)..MinNat(start + PageSize, |rows|)]
  }

  /** The first `n` windows from the cursor on, five rows apart. */
  function PagesFrom(rows: seq<Row>, cursor: nat, n: nat): (pages: seq<seq<Row>>)
    ensures |pages| == n
    decreases n
  {
    if n == 0 then [] else [Window(rows, cursor)] + PagesFrom(rows, cursor + PageSize, n - 1)
  }

  /** The loop of `display_raw` from cursor position `cursor`. */
  function Paginate(rows: seq<Row>, cursor: nat, answers: seq<string>): (s: Session)
    decreases |answers|
    ensures |s.pages| <= |answers|
    ensures s.pages == PagesFrom(rows, cursor, |s.pages|)
    ensures forall k :: 0 <= k < |s.pages| ==> cursor + k * PageSize < |rows|
    ensures forall k :: 0 <= k < |s.pages| ==> IsYes(answers[k])
    ensures s.outcome == Exhausted <==> cursor + |s.pages| * PageSize >= |rows|
    ensures s.outcome == Declined ==> |s.pages| < |answers| && !IsYes(answers[|s.pages|])
    ensures s.outcome == InputEnded ==> |s.pages| == |answers|
  {
    if cursor >= |rows| then Session([], Exhausted)
    else if |answers| == 0 then Session([], InputEnded)
    else if !IsYes(answers[0]) then Session([], Declined)
    else
      var rest := Paginate(rows, cursor + PageSize, answers[1..]);
      Session([Window(rows, cursor)] + rest.pages, rest.outcome)
  }

  /** `display_raw(df)`: the cursor starts at row 0. */
  function DisplayRaw(rows: seq<Row>, answers: seq<string>): (s: Session)
    ensures |rows| == 0 ==> s == Session([], Exhausted)
    ensures |s.pages| <= |answers|
    ensures forall k :: 0 <= k < |s.pages| ==> IsYes(answers[k])
    ensures Flatten(s.pages) == rows[..MinNat(|s.pages| * PageSize, |rows|)]
    ensures s.outcome == Exhausted <==> Flatten(s.pages) == rows
  {
    PagesContiguous(rows, 0, answers);
    Paginate(rows, 0, answers)
  }

  /** Number of pages needed for `n` rows: the ceiling of n / 5. */
  function PagesFor(n: nat): nat
  {
    (n + PageSize - 1) / PageSize
  }

  /** Window `k` of a run of windows starts `5k` rows after the cursor. */
  lemma {:induction false} PagesFromWindows(rows: seq<Row>, cursor: nat, n: nat)
    ensures forall k :: 0 <= k < n ==> PagesFrom(rows, cursor, n)[k] == Window(rows, cursor + k * PageSize)
  {
    forall k | 0 <= k < n
      ensures PagesFrom(rows, cursor, n)[k] == Window(rows, cursor + k * PageSize)
    {
      PageOfRun(rows, cursor, n, k);
    }
  }

  /** Window `k` of a run of windows, one at a time. */
  lemma {:induction false} PageOfRun(rows: seq<Row>, cursor: nat, n: nat, k: nat)
    requires k < n
    ensures PagesFrom(rows, cursor, n)[k] == Window(rows, cursor + k * PageSize)
    decreases k
  {
    if k > 0 {
      var next := cursor + PageSize;
      PageOfRun(rows, next, n - 1, k - 1);
      assert next + (k - 1) * PageSize == cursor + k * PageSize;
    }
  }

  /** Page `k` of a session is the slice `[cursor + 5k, cursor + 5k + 5)` of the frame. */
  lemma PagesAreWindows(rows: seq<Row>, cursor: nat, answers: seq<string>)
    ensures var s := Paginate(rows, cursor, answers);
      forall k :: 0 <= k < |s.pages| ==> s.pages[k] == Window(rows, cursor + k * PageSize)
  {
    PagesFromWindows(rows, cursor, |Paginate(rows, cursor, answers).pages|);
  }

  /** `n` consecutive windows, laid end to end, are one slice of the frame. */
  lemma {:induction false} FlattenPagesFrom(rows: seq<Row>, cursor: nat, n: nat)
    ensures Flatten(PagesFrom(rows, cursor, n)) == rows[MinNat(cursor, |rows|)..MinNat(cursor + n * PageSize, |rows|)]
    decreases n
  {
    if n > 0 {
      var next := cursor + PageSize;
      FlattenCons(Window(rows, cursor), PagesFrom(rows, next, n - 1));
      FlattenPagesFrom(rows, next, n - 1);
      assert cursor + n * PageSize == next + (n - 1) * PageSize;
      SliceConcat(rows, MinNat(cursor, |rows|), MinNat(next, |rows|), MinNat(cursor + n * PageSize, |rows|));
    }
  }

  /** The pages shown, laid end to end, are the rows from the cursor on, without gap or overlap. */
  lemma PagesContiguous(rows: seq<Row>, cursor: nat, answers: seq<string>)
    requires cursor <= |rows|
    ensures var s := Paginate(rows, cursor, answers);
      Flatten(s.pages) == rows[cursor..MinNat(cursor + |s.pages| * PageSize, |rows|)]
  {
    var s := Paginate(rows, cursor, answers);
    FlattenPagesFrom(rows, cursor, |s.pages|);
  }

  /** Answering "yes" to every prompt shows ceil(N / 5) pages covering the whole frame, then the end message. */
  lemma AlwaysYesShowsAll(rows: seq<Row>, answers: seq<string>)
    requires forall k :: 0 <= k < |answers| ==> IsYes(answers[k])
    requires |answers| >= PagesFor(|rows|)
    ensures var s := DisplayRaw(rows, answers);
      && s.outcome == Exhausted
      && |s.pages| == PagesFor(|rows|)
      && Flatten(s.pages) == rows
  {
    PagesContiguous(rows, 0, answers);
  }

  /** An empty frame shows no page and goes straight to the end message, whatever the answers. */
  lemma EmptyFrameShowsNothing(answers: seq<string>)
    ensures DisplayRaw([], answers) == Session([], Exhausted)
  {
  }

  /** On a densely indexed frame, page k holds the rows labelled 5k .. 5k+4: no row is shown twice. */
  lemma PagesDisjoint(rows: seq<Row>, answers: seq<string>)
    requires DenseIndex(rows)
    ensures var s := DisplayRaw(rows, answers);
      forall k, j :: 0 <= k < |s.pages| && 0 <= j < |s.pages[k]| ==> s.pages[k][j].index == k * PageSize + j
  {
    var s := DisplayRaw(rows, answers);
    assert s == Paginate(rows, 0, answers);
    forall k, j | 0 <= k < |s.pages| && 0 <= j < |s.pages[k]|
      ensures s.pages[k][j].index == k * PageSize + j
    {
      PageOfRun(rows, 0, |s.pages|, k);
      WindowLabels(rows, 0 + k * PageSize, j);
    }
  }

  /** On a densely indexed frame, row `j` of the window at `start` is labelled `start + j`. */
  lemma WindowLabels(rows: seq<Row>, start: nat, j: nat)
    requires DenseIndex(rows) && j < |Window(rows, start)|
    ensures Window(rows, start)[j].index == start + j
  {
    assert Window(rows, start)[j] == rows[start + j];
  }

  /** Why the loop stops at cursor `startRow` after `asked` answers: the cursor test comes first. */
  function StopReason(rows: seq<Row>, answers: seq<string>, startRow: nat, asked: nat): Outcome
  {
    if startRow >= |rows| then Exhausted
    else if asked >= |answers| then InputEnded
    else Declined
  }

  /**
   * A session from the cursor in which the first `n` answers are "yes", every
   * page starts inside the frame, and the loop then stops: it shows the first
   * `n` windows and ends for the reason the loop test gives.
   */
  lemma {:induction false} PaginateRun(rows: seq<Row>, cursor: nat, answers: seq<string>, n: nat)
    requires n <= |answers|
    requires forall k :: 0 <= k < n ==> IsYes(answers[k])
    requires n > 0 ==> cursor + (n - 1) * PageSize < |rows|
    requires cursor + n * PageSize >= |rows| || n == |answers| || !IsYes(answers[n])
    ensures Paginate(rows, cursor, answers) == Session(PagesFrom(rows, cursor, n), StopReason(rows, answers, cursor + n * PageSize, n))
    decreases n
  {
    if n > 0 {
      var next := cursor + PageSize;
      var tail := answers[1..];
      assert forall k :: 0 <= k < n - 1 ==> tail[k] == answers[k + 1];
      assert next + (n - 1) * PageSize == cursor + n * PageSize;
      assert n - 1 > 0 ==> next + (n - 2) * PageSize == cursor + (n - 1) * PageSize;
      assert n - 1 < |tail| ==> tail[n - 1] == answers[n];
      PaginateRun(rows, next, tail, n - 1);
    }
  }

  /** One more window at the end of a run of windows. */
  lemma {:induction false} PagesFromSnoc(rows: seq<Row>, cursor: nat, n: nat)
    ensures PagesFrom(rows, cursor, n + 1) == PagesFrom(rows, cursor, n) + [Window(rows, cursor + n * PageSize)]
    decreases n
  {
    if n > 0 {
      PagesFromSnoc(rows, cursor + PageSize, n - 1);
      assert cursor + PageSize + (n - 1) * PageSize == cursor + n * PageSize;
    }
  }

  /**
   * The `while` loop of `display_raw` as written: test the cursor, ask, show
   * five rows and advance by five, until a non-"yes" answer or the end.
   */
  method DisplayRawLoop(rows: seq<Row>, answers: seq<string>) returns (pages: seq<seq<Row>>, outcome: Outcome)
    ensures Session(pages, outcome) == DisplayRaw(rows, answers)
  {
    var startRow: nat := 0;
    var asked: nat := 0;
    pages := [];
    while startRow < |rows|
      invariant asked <= |answers|
      invariant startRow == asked * PageSize
      invariant pages == PagesFrom(rows, 0, asked)
      invariant forall k :: 0 <= k < asked ==> IsYes(answers[k])
      invariant asked > 0 ==> (asked - 1) * PageSize < |rows|
      decreases |rows| - startRow
    {
      if asked == |answers| {
        outcome := InputEnded;
        PaginateRun(rows, 0, answers, asked);
        return;
      }
      if !IsYes(answers[asked]) {
        outcome := Declined;
        PaginateRun(rows, 0, answers, asked);
        return;
      }
      PagesFromSnoc(rows, 0, asked);
      pages := pages + [Window(rows, startRow)];
      startRow := startRow + PageSize;
      asked := asked + 1;
    }
    outcome := Exhausted;
    PaginateRun(rows, 0, answers, asked);
  }
}
