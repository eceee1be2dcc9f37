/** Transaction tracking of internal/router/router.go: the keyword prefix test on single
    statements, the scan over all statements of a query, and the route that follows. */
module TxState {
  import opened SqlText
  import opened Statements
  import opened Router
  import opened Wrappers

  /** What a statement does to the in-transaction flag. */
  datatype TxEffect = NoChange | Opens | Ends

  function Apply(inTx: bool, e: TxEffect): bool {
    match e
    case NoChange => inTx
    case Opens => true
    case Ends => false
  }

  // ---------------------------------------------------------------- byte-level folding

  /** A byte with bit 0x20 set. */
  function Fold(c: char): int {
    var n := c as int;
    if (n / 32) % 2 == 0 then n + 32 else n
  }

  /** eqFold3, eqFold5, eqFold6 and eqFoldN at position i. */
  predicate FoldsTo(q: string, i: nat, kw: string) {
    i + |kw| <= |q| && forall k :: 0 <= k < |kw| ==> Fold(q[i + k]) == Fold(kw[k])
  }

  method EqFold(q: string, i: nat, kw: string) returns (r: bool)
    ensures r == FoldsTo(q, i, kw)
  {
    if i + |kw| > |q| {
      return false;
    }
    for k := 0 to |kw|
      invariant forall j :: 0 <= j < k ==> Fold(q[i + j]) == Fold(kw[j])
    {
      if Fold(q[i + k]) != Fold(kw[k]) {
        return false;
      }
    }
    return true;
  }

  /** The word boundary the prefix test asks for. */
  predicate Boundary(q: string, i: nat) {
    i >= |q| || IsBlank(q[i]) || q[i] == ';'
  }

  predicate TxWordAt(q: string, i: nat, kw: string) {
    FoldsTo(q, i, kw) && Boundary(q, i + |kw|)
  }

  /** What hasTxPrefix answers. */
  function FastEffect(q: string): TxEffect {
    var i := BlankEdge(q, 0);
    if TxWordAt(q, i, Text(Begin)) || TxWordAt(q, i, Text(Start)) then Opens
    else if TxWordAt(q, i, Text(Commit)) || TxWordAt(q, i, Text(Rollback)) || TxWordAt(q, i, Text(End)) then Ends
    else NoChange
  }

  /** hasTxPrefix. */
  method HasTxPrefix(query: string) returns (r: TxEffect)
    ensures r == FastEffect(query)
  {
    var i := 0;
    while i < |query| && IsBlank(query[i])
      invariant 0 <= i <= |query|
      invariant BlankEdge(query, 0) == BlankEdge(query, i)
    {
      i := i + 1;
    }
    var begin := TxWord(query, i, Text(Begin));
    var start := TxWord(query, i, Text(Start));
    if begin || start {
      return Opens;
    }
    var commit := TxWord(query, i, Text(Commit));
    var rollback := TxWord(query, i, Text(Rollback));
    var end := TxWord(query, i, Text(End));
    return if commit || rollback || end then Ends else NoChange;
  }

  method TxWord(query: string, i: nat, kw: string) returns (r: bool)
    ensures r == TxWordAt(query, i, kw)
  {
    r := EqFold(query, i, kw);
    r := r && (i + |kw| == |query| || IsBlank(query[i + |kw|]) || query[i + |kw|] == ';');
  }

  // ---------------------------------------------------------------- the statement scan

  /** What updateTransactionState does for one statement: a plain prefix test in upper case. */
  function SlowEffect(stmt: string): TxEffect {
    var u := Upper(Trim(stmt));
    if StartsWith(u, Text(Commit)) || StartsWith(u, Text(Rollback)) || StartsWith(u, Text(End)) then Ends
    else if StartsWith(u, Text(Begin)) || StartsWith(u, Text(Start)) then Opens
    else NoChange
  }

  /** updateTransactionState over the statements of a query. */
  function ScanTx(inTx: bool, stmts: seq<string>): bool
    decreases |stmts|
  {
    if stmts == [] then inTx else ScanTx(Apply(inTx, SlowEffect(stmts[0])), stmts[1..])
  }

  predicate MentionsTx(stmts: seq<string>) {
    stmts != [] && (SlowEffect(stmts[0]) != NoChange || MentionsTx(stmts[1..]))
  }

  method UpdateTransactionState(query: string, inTx: bool) returns (r: bool)
    ensures r == ScanTx(inTx, Split(query))
  {
    var stmts := SplitStatements(query);
    r := inTx;
    for i := 0 to |stmts|
      invariant ScanTx(inTx, stmts) == ScanTx(r, stmts[i..])
    {
      var u := Upper(Trim(stmts[i]));
      if StartsWith(u, Text(Begin)) || StartsWith(u, Text(Start)) {
        r := true;
      }
      if StartsWith(u, Text(Commit)) || StartsWith(u, Text(Rollback)) || StartsWith(u, Text(End)) {
        r := false;
      }
    }
  }

  // ---------------------------------------------------------------- where the two disagree

  /** kw, written in any case, stands at position i. */
  predicate UpperAt(q: string, i: nat, kw: string) {
    i + |kw| <= |q| && forall k :: 0 <= k < |kw| ==> UpperChar(q[i + k]) == kw[k]
  }

  datatype Keyword = Begin | Start | Commit | Rollback | End

  function Text(w: Keyword): string {
    match w
    case Begin => "BEGIN"
    case Start => "START TRANSACTION"
    case Commit => "COMMIT"
    case Rollback => "ROLLBACK"
    case End => "END"
  }

  /** The transaction keyword the query starts with after all its leading white space. */
  function LeadTxWord(q: string): (w: Option<Keyword>)
    ensures w.Some? ==> UpperAt(q, LeftEdge(q, 0), Text(w.value))
  {
    var lo := LeftEdge(q, 0);
    if UpperAt(q, lo, Text(Begin)) then Some(Begin)
    else if UpperAt(q, lo, Text(Start)) then Some(Start)
    else if UpperAt(q, lo, Text(Commit)) then Some(Commit)
    else if UpperAt(q, lo, Text(Rollback)) then Some(Rollback)
    else if UpperAt(q, lo, Text(End)) then Some(End)
    else None
  }

  function WordEffect(w: Option<Keyword>): TxEffect {
    match w
    case None => NoChange
    case Some(k) => if k.Begin? || k.Start? then Opens else Ends
  }

  const NUL: char := 0 as char

  /** START and TRANSACTION with a NUL byte between them, which the folding takes for a space. */
  predicate NulStart(q: string, i: nat) {
    i + 17 <= |q| && UpperAt(q, i, "START") && q[i + 5] == NUL && UpperAt(q, i + 6, "TRANSACTION")
  }

  /** The prefix test misses the keyword the scan sees, or sees one the scan does not. */
  predicate TxMisread(q: string) {
    var lo := LeftEdge(q, 0);
    || (LeadTxWord(q).Some? && !(BlankEdge(q, 0) == lo && Boundary(q, lo + |Text(LeadTxWord(q).value)|)))
    || (BlankEdge(q, 0) == lo && NulStart(q, lo) && Boundary(q, lo + 17))
  }

  lemma FoldLetter(c: char, t: char)
    requires 'A' <= t <= 'Z'
    ensures Fold(c) == Fold(t) <==> UpperChar(c) == t
  {}

  lemma FoldSpace(c: char)
    ensures Fold(c) == Fold(' ') <==> c == ' ' || c == NUL
  {}

  lemma FoldsIsUpper(q: string, i: nat, kw: string)
    requires forall k :: 0 <= k < |kw| ==> 'A' <= kw[k] <= 'Z'
    ensures FoldsTo(q, i, kw) <==> UpperAt(q, i, kw)
    ensures UpperAt(q, i, kw) ==> i + |kw| <= |q|
  {
    hide Fold, UpperChar;
    if i + |kw| <= |q| {
      forall k | 0 <= k < |kw| ensures Fold(q[i + k]) == Fold(kw[k]) <==> UpperChar(q[i + k]) == kw[k] {
        FoldLetter(q[i + k], kw[k]);
      }
    }
  }

  lemma FoldsAppend(q: string, i: nat, a: string, b: string)
    ensures FoldsTo(q, i, a + b) <==> FoldsTo(q, i, a) && FoldsTo(q, i + |a|, b)
    ensures UpperAt(q, i, a + b) <==> UpperAt(q, i, a) && UpperAt(q, i + |a|, b)
  {
    hide Fold, UpperChar;
    if i + |a| + |b| <= |q| {
      assert forall k :: 0 <= k < |a| ==> (a + b)[k] == a[k];
      assert forall k :: 0 <= k < |b| ==> (a + b)[|a| + k] == b[k];
      if FoldsTo(q, i, a + b) {
        assert forall k :: 0 <= k < |b| ==> Fold(b[k]) == Fold(q[i + |a| + k]);
      }
      if UpperAt(q, i, a + b) {
        assert forall k :: 0 <= k < |b| ==> b[k] == UpperChar(q[i + |a| + k]);
      }
    }
  }

  lemma FoldsStart(q: string, i: nat)
    ensures FoldsTo(q, i, Text(Start)) <==> UpperAt(q, i, Text(Start)) || NulStart(q, i)
  {
    hide FoldsTo, UpperAt, Fold;
    assert "START TRANSACTION" == "START " + "TRANSACTION" && "START " == "START" + " ";
    FoldsAppend(q, i, "START ", "TRANSACTION");
    FoldsAppend(q, i, "START", " ");
    FoldsIsUpper(q, i, "START");
    FoldsIsUpper(q, i + 6, "TRANSACTION");
    OneSpace(q, i + 5);
  }

  lemma OneSpace(q: string, i: nat)
    ensures FoldsTo(q, i, " ") <==> i < |q| && (q[i] == ' ' || q[i] == NUL)
    ensures UpperAt(q, i, " ") <==> i < |q| && q[i] == ' '
  {
    hide Fold;
    assert " "[0] == ' ';
    if i < |q| {
      FoldSpace(q[i]);
      assert q[i + 0] == q[i];
    }
  }

  /** A keyword of capital letters and inner spaces. */
  predicate IsPhrase(kw: string) {
    && kw != "" && kw[0] != ' ' && kw[|kw| - 1] != ' '
    && forall k :: 0 <= k < |kw| ==> kw[k] == ' ' || 'A' <= kw[k] <= 'Z'
  }

  /** The scan finds a keyword at the head of the only statement exactly when the query shows it. */
  lemma HeadStartsWith(q: string, hi: nat, c: nat, kw: string)
    requires IsPhrase(kw) && c == FirstCut(q, 0, Plain)
    requires var lo := LeftEdge(q, 0); lo < hi <= c && AllWhite(q, hi, c) && !IsWhite(q[hi - 1])
    ensures StartsWith(Upper(Trim(q[LeftEdge(q, 0)..hi])), kw) <==> UpperAt(q, LeftEdge(q, 0), kw)
  {
    hide FirstCut, Trim, IsPhrase, UpperAt, StartsWith, Upper;
    var lo := LeftEdge(q, 0);
    TrimFixed(q[lo..hi]);
    if UpperAt(q, lo, kw) {
      PhraseFits(q, lo, hi, c, kw);
    }
    UpperPrefix(q, lo, hi, kw);
  }

  lemma UpperPrefix(q: string, lo: nat, hi: nat, kw: string)
    requires lo <= hi <= |q|
    ensures StartsWith(Upper(q[lo..hi]), kw) <==> lo + |kw| <= hi && UpperAt(q, lo, kw)
  {
    hide UpperChar;
    var u, n := Upper(q[lo..hi]), |kw|;
    if n <= |u| {
      assert forall k :: 0 <= k < n ==> u[..n][k] == UpperChar(q[lo + k]);
    }
  }

  lemma PhraseFits(q: string, lo: nat, hi: nat, c: nat, kw: string)
    requires IsPhrase(kw) && UpperAt(q, lo, kw) && c == FirstCut(q, 0, Plain)
    requires lo == LeftEdge(q, 0) && lo <= hi <= c && AllWhite(q, hi, c)
    ensures lo + |kw| <= hi
  {
    hide FirstCut;
    var n := |kw|;
    forall k | 0 <= k < lo + n ensures IsWhite(q[k]) || IsLetter(q[k]) {
      if k >= lo {
        assert UpperChar(q[lo + (k - lo)]) == kw[k - lo];
      }
    }
    CutAfterWords(q, 0, lo + n);
    assert UpperChar(q[lo + (n - 1)]) == kw[n - 1];
  }

  /** The effect the scan gives a whole query. */
  function QueryEffect(q: string): TxEffect {
    if Split(q) == [] then NoChange else SlowEffect(Split(q)[0])
  }

  lemma Phrases()
    ensures forall w: Keyword :: IsPhrase(Text(w))
  {
    forall w: Keyword ensures IsPhrase(Text(w)) {
      match w
      case Begin => case Start => case Commit => case Rollback => case End =>
    }
  }

  /** A single statement has the effect of the keyword at its head. */
  lemma QueryEffectIs(q: string)
    requires IsSingle(q)
    ensures QueryEffect(q) == WordEffect(LeadTxWord(q))
  {
    hide FirstCut, Kept, Trim, Segments, IsPhrase, UpperAt, Upper, StartsWith;
    var lo, c := LeftEdge(q, 0), FirstCut(q, 0, Plain);
    SingleMeansAtMostOne(q);
    KeptOne(q[..c]);
    OneKeyword(q, lo);
    Phrases();
    if lo < c {
      var hi := TrimHead(q, c);
      HeadStartsWith(q, hi, c, Text(Begin));
      HeadStartsWith(q, hi, c, Text(Start));
      HeadStartsWith(q, hi, c, Text(Commit));
      HeadStartsWith(q, hi, c, Text(Rollback));
      HeadStartsWith(q, hi, c, Text(End));
    } else {
      EmptyStatement(q);
      NoWordWithoutLetters(q);
    }
  }

  lemma NoWordWithoutLetters(q: string)
    requires |LeadWord(q)| == 0
    ensures LeadTxWord(q) == None
  {
    hide Upper, LeadTxWord, Text;
    var lo := LeftEdge(q, 0);
    Phrases();
    forall w: Keyword ensures !UpperAt(q, lo, Text(w)) {
      UpperNth(q, lo, Text(w), 0);
    }
  }

  lemma UpperNth(q: string, i: nat, kw: string, k: nat)
    requires k < |kw|
    ensures UpperAt(q, i, kw) ==> i + k < |q| && UpperChar(q[i + k]) == kw[k]
  {}

  /** The first letters of the transaction keywords keep them apart. */
  lemma OneKeyword(q: string, i: nat)
    ensures forall v, w: Keyword :: UpperAt(q, i, Text(v)) && UpperAt(q, i, Text(w)) ==> v == w
    ensures NulStart(q, i) ==> forall w: Keyword :: !UpperAt(q, i, Text(w))
  {
    hide UpperChar;
    forall v, w: Keyword | UpperAt(q, i, Text(v)) && UpperAt(q, i, Text(w)) ensures v == w {
      FirstLetter(v);
      FirstLetter(w);
      assert UpperChar(q[i + 0]) == Text(v)[0] && UpperChar(q[i + 0]) == Text(w)[0];
    }
    if NulStart(q, i) {
      forall w: Keyword ensures !UpperAt(q, i, Text(w)) {
        FirstLetter(w);
        NulUpper();
        assert "START"[0] == 'S' && UpperChar(q[i + 0]) == 'S';
        assert Text(Start)[5] == ' ';
        UpperNth(q, i, Text(Start), 5);
        UpperNth(q, i, Text(w), 0);
      }
    }
  }

  lemma FirstLetter(w: Keyword)
    ensures |Text(w)| > 0
    ensures Text(w)[0] == match w case Begin => 'B' case Start => 'S' case Commit => 'C' case Rollback => 'R' case End => 'E'
  {}

  lemma NulUpper()
    ensures UpperChar(NUL) == NUL
  {}

  /** The prefix test moves the in-transaction flag as the statement scan does, whatever the
      flag was, exactly when the query is not one of the misread ones. */
  lemma FastEffectExact(q: string)
    requires IsSingle(q)
    ensures (forall inTx :: Apply(inTx, FastEffect(q)) == ScanTx(inTx, Split(q))) <==> !TxMisread(q)
  {
    hide IsSingle, Split, FastEffect, TxMisread, SlowEffect;
    SingleScan(q);
    QueryEffectIs(q);
    FastEffectIs(q);
    assert Apply(true, FastEffect(q)) == Apply(true, QueryEffect(q)) && Apply(false, FastEffect(q)) == Apply(false, QueryEffect(q))
      <==> FastEffect(q) == QueryEffect(q);
  }

  lemma SingleScan(q: string)
    requires IsSingle(q)
    ensures forall inTx :: ScanTx(inTx, Split(q)) == Apply(inTx, QueryEffect(q))
  {
    hide Split, SlowEffect;
    SingleMeansAtMostOne(q);
    assert Split(q) != [] ==> Split(q)[1..] == [];
  }

  /** The prefix test at position i: the keyword standing there, or the NUL form, at a boundary. */
  lemma FoldsIsText(q: string, i: nat, w: Keyword)
    ensures FoldsTo(q, i, Text(w)) <==> UpperAt(q, i, Text(w)) || (w.Start? && NulStart(q, i))
  {
    hide FoldsTo, UpperAt, NulStart;
    if w.Start? {
      FoldsStart(q, i);
    } else {
      FoldsIsUpper(q, i, Text(w));
    }
  }

  lemma FastEffectIs(q: string)
    ensures FastEffect(q) == WordEffect(LeadTxWord(q)) <==> !TxMisread(q)
  {
    hide FoldsTo, UpperAt, Boundary, NulStart, Text;
    var lo, i := LeftEdge(q, 0), BlankEdge(q, 0);
    OneKeyword(q, i);
    FoldsIsText(q, i, Begin);
    FoldsIsText(q, i, Start);
    FoldsIsText(q, i, Commit);
    FoldsIsText(q, i, Rollback);
    FoldsIsText(q, i, End);
    StartLength();
    if i < lo {
      NoWordAtWhite(q, i);
    }
  }

  lemma StartLength()
    ensures |Text(Start)| == 17
  {}

  lemma NoWordAtWhite(q: string, i: nat)
    requires i < |q| && IsWhite(q[i])
    ensures forall w: Keyword :: !UpperAt(q, i, Text(w))
    ensures !NulStart(q, i)
  {
    forall w: Keyword ensures !UpperAt(q, i, Text(w)) {
      FirstLetter(w);
      UpperNth(q, i, Text(w), 0);
    }
    assert "START"[0] == 'S';
    UpperNth(q, i, "START", 0);
  }

  /** A query whose first word only begins like a keyword: the scan ends the transaction, the
      prefix test does not. */
  lemma TxCounterexample()
    ensures IsSingle("ENDED") && TxMisread("ENDED")
    ensures FastEffect("ENDED") != QueryEffect("ENDED")
  {
    hide IsSingle, Split, FastEffect, Contains;
    var q := "ENDED";
    PlainQuery(q);
    assert UpperAt(q, 0, Text(End));
    OneKeyword(q, 0);
    assert LeadTxWord(q) == Some(End);
    QueryEffectIs(q);
    FastEffectIs(q);
  }

  // ---------------------------------------------------------------- routing

  datatype Route = ToWriter | ToReader

  /** What routeQueryLocked needs to know besides the text and the flag: how the parser in use
      classifies the query, whether reads follow write positions, and whether the last write is
      within the delay window. */
  datatype RouteInput = RouteInput(isWrite: bool, causal: bool, recentWrite: bool)

  /** The flag after the query. */
  function TxAfter(inTx: bool, q: string): bool {
    if IsSingle(q) then Apply(inTx, FastEffect(q)) else ScanTx(inTx, Split(q))
  }

  /** Transaction control, or a query inside a transaction. */
  predicate Pinned(inTx: bool, q: string) {
    if IsSingle(q) then FastEffect(q) != NoChange || TxAfter(inTx, q)
    else inTx || TxAfter(inTx, q) || MentionsTx(Split(q))
  }

  function RouteOf(inTx: bool, q: string, info: RouteInput): Route {
    if Pinned(inTx, q) || info.isWrite then ToWriter
    else if info.causal then ToReader
    else if info.recentWrite then ToWriter
    else ToReader
  }

  // ---------------------------------------------------------------- session-modifying queries

  predicate IsTabOrSpace(c: char) {
    c == ' ' || c == '\t'
  }

  function TabEdge(q: string, i: nat): (r: nat)
    requires i <= |q|
    ensures i <= r <= |q|
    decreases |q| - i
  {
    if i < |q| && IsTabOrSpace(q[i]) then TabEdge(q, i + 1) else i
  }

  predicate WordAt(q: string, i: nat, kw: string) {
    FoldsTo(q, i, kw) && (i + |kw| == |q| || IsTabOrSpace(q[i + |kw|]))
  }

  /** isSessionModifying: the query leaves session state behind that needs a reset. */
  predicate IsSessionModifying(q: string) {
    var i := BlankEdge(q, 0);
    || (FoldsTo(q, i, "SET") && i + 3 < |q| && IsTabOrSpace(q[i + 3]) && !TxScopedSet(q, TabEdge(q, i + 4)))
    || WordAt(q, i, "PREPARE") || WordAt(q, i, "DECLARE") || WordAt(q, i, "DEALLOCATE")
    || WordAt(q, i, "LISTEN") || WordAt(q, i, "LOAD") || WordAt(q, i, "UNLISTEN")
    || (FoldsTo(q, i, "CREATE") && FoldsTo(q, TabEdge(q, i + 6), "TEMP"))
  }

  /** SET LOCAL and SET TRANSACTION last only for the transaction. */
  predicate TxScopedSet(q: string, j: nat) {
    || (j + 5 < |q| && FoldsTo(q, j, "LOCAL") && IsTabOrSpace(q[j + 5]))
    || (j + 11 < |q| && FoldsTo(q, j, "TRANSACTION"))
  }

  /** The first three letters of a word, wherever it stands. */
  predicate Begins(q: string, i: nat, a: char, b: char, c: char) {
    i + 3 <= |q| && UpperChar(q[i]) == a && UpperChar(q[i + 1]) == b && UpperChar(q[i + 2]) == c
  }

  lemma FoldsBegins(q: string, i: nat, kw: string)
    requires |kw| >= 3 && (forall k :: 0 <= k < |kw| ==> 'A' <= kw[k] <= 'Z') && FoldsTo(q, i, kw)
    ensures Begins(q, i, kw[0], kw[1], kw[2])
  {
    assert Fold(q[i + 0]) == Fold(kw[0]) && Fold(q[i + 1]) == Fold(kw[1]) && Fold(q[i + 2]) == Fold(kw[2]);
    FoldLetter(q[i], kw[0]);
    FoldLetter(q[i + 1], kw[1]);
    FoldLetter(q[i + 2], kw[2]);
  }

  /** How the statements that modify a session begin, but for CREATE TEMP. */
  predicate BeginsQuietly(q: string, i: nat) {
    || Begins(q, i, 'S', 'E', 'T') || Begins(q, i, 'P', 'R', 'E') || Begins(q, i, 'D', 'E', 'C') || Begins(q, i, 'D', 'E', 'A')
    || Begins(q, i, 'L', 'I', 'S') || Begins(q, i, 'L', 'O', 'A') || Begins(q, i, 'U', 'N', 'L')
  }

  lemma ModifyingBegins(q: string)
    requires IsSessionModifying(q)
    ensures var i := BlankEdge(q, 0); BeginsQuietly(q, i) || (FoldsTo(q, i, "CREATE") && Begins(q, i, 'C', 'R', 'E'))
  {
    hide FoldsTo, Begins, TxScopedSet, TabEdge;
    var i := BlankEdge(q, 0);
    if FoldsTo(q, i, "SET") { FoldsBegins(q, i, "SET"); }
    if FoldsTo(q, i, "PREPARE") { FoldsBegins(q, i, "PREPARE"); }
    if FoldsTo(q, i, "DECLARE") { FoldsBegins(q, i, "DECLARE"); }
    if FoldsTo(q, i, "DEALLOCATE") { FoldsBegins(q, i, "DEALLOCATE"); }
    if FoldsTo(q, i, "LISTEN") { FoldsBegins(q, i, "LISTEN"); }
    if FoldsTo(q, i, "LOAD") { FoldsBegins(q, i, "LOAD"); }
    if FoldsTo(q, i, "UNLISTEN") { FoldsBegins(q, i, "UNLISTEN"); }
    if FoldsTo(q, i, "CREATE") { FoldsBegins(q, i, "CREATE"); }
  }

  /** None of them begins like a transaction keyword. */
  lemma NoTxWord(q: string)
    requires var i := BlankEdge(q, 0); BeginsQuietly(q, i) || Begins(q, i, 'C', 'R', 'E')
    ensures FastEffect(q) == NoChange
  {
    hide FoldsTo;
    var i := BlankEdge(q, 0);
    forall w: Keyword ensures !FoldsTo(q, i, Text(w)) {
      TxBegins(q, i, w);
    }
  }

  lemma TxBegins(q: string, i: nat, w: Keyword)
    requires BeginsQuietly(q, i) || Begins(q, i, 'C', 'R', 'E')
    ensures !FoldsTo(q, i, Text(w))
  {
    hide FoldsTo, BeginsQuietly, Begins;
    FirstLetters(q, i);
    match w
    case Begin => Unlike(q, i, Text(w), 0);
    case Start => Unlike(q, i, Text(w), if UpperChar(q[i]) == 'S' then 1 else 0);
    case Commit => Unlike(q, i, Text(w), if UpperChar(q[i]) == 'C' then 1 else 0);
    case Rollback => Unlike(q, i, Text(w), 0);
    case End => Unlike(q, i, Text(w), 0);
  }

  lemma FirstLetters(q: string, i: nat)
    requires BeginsQuietly(q, i) || Begins(q, i, 'C', 'R', 'E')
    ensures i + 1 < |q| && UpperChar(q[i]) in {'S', 'P', 'D', 'L', 'U', 'C'}
    ensures UpperChar(q[i]) == 'S' ==> UpperChar(q[i + 1]) == 'E'
    ensures UpperChar(q[i]) == 'C' ==> UpperChar(q[i + 1]) == 'R'
  {}

  lemma Unlike(q: string, i: nat, kw: string, k: nat)
    requires k < |kw| && i + k < |q| && 'A' <= kw[k] <= 'Z' && UpperChar(q[i + k]) != kw[k]
    ensures !FoldsTo(q, i, kw)
  {
    FoldLetter(q[i + k], kw[k]);
  }

  /** None of them but CREATE begins like a write keyword. */
  lemma NoWriteWord(q: string, i: nat)
    requires i == LeftEdge(q, 0) && BeginsQuietly(q, i)
    ensures !IsWriteKeyword(LeadWord(q))
  {
    hide LeftEdge, LetterEnd, Upper;
    var e := LetterEnd(q, i);
    assert IsLetter(q[i]) && IsLetter(q[i + 1]) && IsLetter(q[i + 2]);
    assert e >= i + 3 by {
      LettersGoOn(q, i);
    }
    var w := LeadWord(q);
    assert q[i..e][0] == q[i] && q[i..e][1] == q[i + 1] && q[i..e][2] == q[i + 2];
    assert w[0] == UpperChar(q[i]) && w[1] == UpperChar(q[i + 1]) && w[2] == UpperChar(q[i + 2]);
    hide LeadWord;
    ThirdLetter(w);
  }

  lemma LettersGoOn(q: string, i: nat)
    requires i + 3 <= |q| && IsLetter(q[i]) && IsLetter(q[i + 1]) && IsLetter(q[i + 2])
    ensures LetterEnd(q, i) >= i + 3
  {
    assert LetterEnd(q, i) == LetterEnd(q, i + 1) == LetterEnd(q, i + 2) == LetterEnd(q, i + 3);
  }

  lemma ThirdLetter(w: string)
    requires |w| >= 3
    requires (w[0], w[1], w[2]) in
      {('S', 'E', 'T'), ('P', 'R', 'E'), ('D', 'E', 'C'), ('D', 'E', 'A'), ('L', 'I', 'S'), ('L', 'O', 'A'), ('U', 'N', 'L')}
    ensures !IsWriteKeyword(w)
  {
    forall k | 0 <= k < |WriteKeywords| ensures w != WriteKeywords[k] {
      var kw := WriteKeywords[k];
      assert kw in {"INSERT", "UPDATE", "DELETE", "CREATE", "ALTER", "DROP", "TRUNCATE", "GRANT", "REVOKE"};
    }
  }

  /** Every session-modifying query that classifyFast answers is answered Write only if it is a
      CREATE TEMP, and exactly when its leading word is one the fast path sees as a write keyword;
      any other one goes to a reader outside a transaction, although only writer borrows are ever
      reset. */
  lemma ModifyingIsRoutedToReader(q: string, causal: bool)
    requires FastClassify(q).Some? && IsSessionModifying(q)
    ensures FastClassify(q) == Some(Write) <==> FastSees(q) && IsWriteKeyword(LeadWord(q))
    ensures FastClassify(q) == Some(Write) ==> FoldsTo(q, BlankEdge(q, 0), "CREATE")
    ensures FastClassify(q) == Some(Read) ==> RouteOf(false, q, RouteInput(false, causal, false)) == ToReader
  {
    hide IsSingle, Contains, LeadWord, IsWriteKeyword, IsWith, IsSessionModifying, FoldsTo, BeginsQuietly, FastEffect, FastSees;
    var i := BlankEdge(q, 0);
    ModifyingBegins(q);
    BeginsInside(q, i);
    SomeAnswer(q);
    FastAnswer(q);
    NoTxWord(q);
    if FastClassify(q) == Some(Write) && BeginsQuietly(q, i) {
      SeesEdge(q);
      NoWriteWord(q, i);
    }
  }

  lemma BeginsInside(q: string, i: nat)
    requires BeginsQuietly(q, i) || Begins(q, i, 'C', 'R', 'E')
    ensures i < |q|
  {}

  lemma SomeAnswer(q: string)
    requires FastClassify(q).Some? && BlankEdge(q, 0) < |q|
    ensures !Contains(q, "/*") && !Contains(q, "--") && IsSingle(q)
  {
    hide Contains, IsSingle, IsWriteKeyword, IsWith;
  }

  lemma SeesEdge(q: string)
    requires FastSees(q)
    ensures BlankEdge(q, 0) == LeftEdge(q, 0)
  {}

  /** A SET is such a query. */
  lemma SetIsRoutedToReader()
    ensures IsSessionModifying("SET x")
    ensures FastClassify("SET x") == Some(Read)
    ensures RouteOf(false, "SET x", RouteInput(false, false, false)) == ToReader
  {
    hide IsSingle, Contains, FastClassify, FastEffect, LeadWord, IsWriteKeyword, IsWith;
    var q := "SET x";
    PlainQuery(q);
    assert FoldsTo(q, 0, "SET");
    assert TabEdge(q, 4) == 4;
    assert BeginsQuietly(q, 0);
    FastAnswer(q);
    NoWriteWord(q, 0);
    NotWith(q);
    ModifyingIsRoutedToReader(q, false);
  }

  lemma NotWith(q: string)
    requires q == "SET x"
    ensures !IsWith(LeadWord(q))
  {
    hide Upper, LetterEnd;
    LettersGoOn(q, 0);
    assert LeadWord(q)[0] == 'S';
  }
}
