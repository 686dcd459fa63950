/** Freezing a task pool: canonical signatures, first occurrences, registered exclusions. */
module TaskPool {
  import opened Common
  import opened Text
  import opened Sorting

  // ---- signatures ----------------------------------------------------------------------------------

  function Decimals(numbers: seq<int>): seq<string> {
    Map(Decimal, numbers)
  }

  function NumberSignature(numbers: seq<int>): string {
    JoinOn(",", Decimals(Sort(IntOrder(), numbers)))
  }

  function WordSignature(words: seq<string>): string {
    JoinOn("|", Sort(StringOrder(), words))
  }

  lemma DecimalsInjective(a: seq<int>, b: seq<int>)
    ensures Decimals(a) == Decimals(b) <==> a == b
  {
    if Decimals(a) == Decimals(b) {
      assert |Decimals(a)| == |a| && |Decimals(b)| == |b|;
      forall i | 0 <= i < |a| ensures a[i] == b[i] {
        assert Decimals(a)[i] == Decimal(a[i]) && Decimals(b)[i] == Decimal(b[i]);
        DecimalInjective(a[i], b[i]);
      }
    }
  }

  lemma {:induction false} JoinPlain(sep: char, a: seq<string>, b: seq<string>)
    requires a != [] && b != []
    requires forall i :: 0 <= i < |a| ==> sep !in a[i]
    requires forall i :: 0 <= i < |b| ==> sep !in b[i]
    ensures JoinOn([sep], a) == JoinOn([sep], b) <==> a == b
  {
    JoinEqualIff(sep, a, b);
    FlattenPlain(sep, a);
    FlattenPlain(sep, b);
  }

  lemma SortOfSorted<T(!new)>(le: Order<T>, s: seq<T>)
    requires TotalOrder(le) && SortedBy(le, s)
    ensures Sort(le, s) == s
  {
    SortSorts(le, s);
    SortedIsUnique(le, Sort(le, s), s);
  }

  /** The signature of numbers in ascending order lists them between commas, and two number rows have the same signature
      iff they are permutations of each other. */
  lemma NumberSignatureIff(a: seq<int>, b: seq<int>)
    requires a != [] && b != []
    ensures (forall i, j :: 0 <= i < j < |a| ==> a[i] <= a[j]) ==> NumberSignature(a) == JoinOn(",", Map(Decimal, a))
    ensures NumberSignature(a) == NumberSignature(b) <==> multiset(a) == multiset(b)
  {
    if forall i, j :: 0 <= i < j < |a| ==> a[i] <= a[j] {
      SortOfSorted(IntOrder(), a);
    }
    var x, y := Sort(IntOrder(), a), Sort(IntOrder(), b);
    SortSorts(IntOrder(), a);
    SortSorts(IntOrder(), b);
    forall i | 0 <= i < |x| ensures ',' !in Decimals(x)[i] {
      DecimalHasNo(x[i], ',');
    }
    forall i | 0 <= i < |y| ensures ',' !in Decimals(y)[i] {
      DecimalHasNo(y[i], ',');
    }
    JoinPlain(',', Decimals(x), Decimals(y));
    DecimalsInjective(x, y);
    SortEqualIff(IntOrder(), a, b);
  }

  /** The signature of sorted words lists them between bars; for any words, two signatures agree exactly when the sorted
      words agree once they are cut at every bar. */
  lemma WordSignatureIff(a: seq<string>, b: seq<string>)
    requires a != [] && b != []
    ensures SortedBy(StringOrder(), a) ==> WordSignature(a) == JoinOn("|", a)
    ensures WordSignature(a) == WordSignature(b) <==>
      Flatten('|', Sort(StringOrder(), a)) == Flatten('|', Sort(StringOrder(), b))
  {
    StringOrderIsTotal();
    if SortedBy(StringOrder(), a) {
      SortOfSorted(StringOrder(), a);
    }
    SortSorts(StringOrder(), a);
    SortSorts(StringOrder(), b);
    JoinEqualIff('|', Sort(StringOrder(), a), Sort(StringOrder(), b));
  }

  /** Without bars in the words that means: permutations of each other. */
  lemma PlainWordSignatureIff(a: seq<string>, b: seq<string>)
    requires a != [] && b != []
    requires forall w :: w in a ==> '|' !in w
    requires forall w :: w in b ==> '|' !in w
    ensures WordSignature(a) == WordSignature(b) <==> multiset(a) == multiset(b)
  {
    var x, y := Sort(StringOrder(), a), Sort(StringOrder(), b);
    StringOrderIsTotal();
    SortSorts(StringOrder(), a);
    SortSorts(StringOrder(), b);
    forall i | 0 <= i < |x| ensures '|' !in x[i] {
      assert x[i] in multiset(x);
      assert x[i] in a;
    }
    forall i | 0 <= i < |y| ensures '|' !in y[i] {
      assert y[i] in multiset(y);
      assert y[i] in b;
    }
    JoinPlain('|', x, y);
    SortEqualIff(StringOrder(), a, b);
  }

  /** A word with a bar collides with the list of its two halves. */
  lemma BarsCollide(u: string, v: string)
    requires LexLe(u, v)
    ensures WordSignature([u + "|" + v]) == WordSignature([u, v]) && multiset([u + "|" + v]) != multiset([u, v])
  {
    var whole, halves := [u + "|" + v], [u, v];
    assert halves[1..] == [v] && [v][1..] == [] && whole[1..] == [];
    assert Sort(StringOrder(), [v]) == [v];
    assert Sort(StringOrder(), halves) == halves && Sort(StringOrder(), whole) == whole;
    assert JoinOn("|", halves) == u + "|" + JoinOn("|", [v]);
    assert |multiset(whole)| == 1 && |multiset(halves)| == 2;
  }

  lemma SignatureOfOne(w: string)
    ensures WordSignature([w]) == w
  {
    assert [w][1..] == [];
    assert Sort(StringOrder(), [w]) == [w];
  }

  lemma {:induction false} PrefixIsLess(a: string, rest: string)
    ensures LexLe(a, a + rest)
  {
    if a != "" {
      PrefixIsLess(a[1..], rest);
      assert (a + rest)[1..] == a[1..] + rest;
    }
  }

  /** No bar cuts the word into two pieces that are in order. */
  ghost predicate NoOrderedCut(w: string) {
    forall u: string, v: string :: w == u + "|" + v ==> !LexLe(u, v)
  }

  /** The first of several sorted words comes before the join of the others. */
  lemma SortedHeadCuts(words: seq<string>)
    requires |words| >= 2 && LexLe(words[0], words[1])
    ensures !NoOrderedCut(JoinOn("|", words))
  {
    var rest := words[1..];
    var joined := JoinOn("|", rest);
    assert exists tail :: joined == rest[0] + tail by {
      if |rest| == 1 {
        assert joined == rest[0] + "";
      } else {
        assert joined == rest[0] + ("|" + JoinOn("|", rest[1..]));
      }
    }
    var tail :| joined == rest[0] + tail;
    PrefixIsLess(rest[0], tail);
    LexTransitive(words[0], rest[0], joined);
    assert JoinOn("|", words) == words[0] + "|" + joined;
  }

  /** Every list with the signature of one uncut word is that word alone. */
  lemma UncutWordIsIdentified(w: string, b: seq<string>)
    requires NoOrderedCut(w) && b != [] && WordSignature(b) == w
    ensures multiset(b) == multiset([w])
  {
    hide NoOrderedCut;
    var sorted := Sort(StringOrder(), b);
    StringOrderIsTotal();
    SortSorts(StringOrder(), b);
    if |sorted| >= 2 {
      assert StringOrder()(sorted[0], sorted[1]);
      SortedHeadCuts(sorted);
    } else {
      assert sorted == [w];
    }
  }

  /** Only one word list is told apart up to permutation: a single word that no bar cuts into two pieces in order.
      Longer lists share their signature with the one word that joins them. */
  lemma {:induction false} SignatureIdentifiesIff(a: seq<string>)
    requires a != []
    ensures
      (forall b :: b != [] && WordSignature(b) == WordSignature(a) ==> multiset(b) == multiset(a)) <==>
      |a| == 1 && NoOrderedCut(a[0])
  {
    hide WordSignature, NoOrderedCut;
    if |a| > 1 {
      SignatureOfOne(WordSignature(a));
      assert |multiset([WordSignature(a)])| == 1 && |multiset(a)| == |a|;
    } else {
      assert a == [a[0]];
      SignatureOfOne(a[0]);
      if NoOrderedCut(a[0]) {
        forall b | b != [] && WordSignature(b) == WordSignature(a) ensures multiset(b) == multiset(a) {
          UncutWordIsIdentified(a[0], b);
        }
      } else {
        var u, v := OrderedCut(a[0]);
        BarsCollide(u, v);
      }
    }
  }

  lemma OrderedCut(w: string) returns (u: string, v: string)
    requires !NoOrderedCut(w)
    ensures w == u + "|" + v && LexLe(u, v)
  {
    u, v :| w == u + "|" + v && LexLe(u, v);
  }

  // ---- source rows ---------------------------------------------------------------------------------

  datatype Task = Game24 | MathEquationBalancer | WordSorting

  datatype SourceValue = Str(s: string) | Int(i: int)

  type SourceRow = map<string, SourceValue>

  /** int of a string, None where it raises; and the matches of an optional minus sign and digits. */
  datatype Python = Python(parseInt: string -> Option<int>, findNumbers: string -> seq<string>)

  datatype MainRow =
    | Game24Row(sampleId: string, numbers: seq<int>, goal: int, signature: string, sourceRow: nat)
    | MebRow(sampleId: string, input: string, target: string, targetValue: int, signature: string, sourceRow: nat)
    | WordSortingRow(
        sampleId: string, words: seq<string>, sortedWords: seq<string>, signature: string, sourceRow: nat)

  datatype RegistryError = Game24SourceRowInvalid | MebSourceRowInvalid | WordSortingSourceRowInvalid

  function Get(row: SourceRow, key: string): Option<SourceValue> {
    if key in row then Some(row[key]) else None
  }

  predicate IsStr(v: Option<SourceValue>) {
    v.Some? && v.value.Str?
  }

  function ParseAll(parse: string -> Option<int>, words: seq<string>): Option<seq<int>> {
    if words == [] then Some([])
    else
      var first, rest := parse(words[0]), ParseAll(parse, words[1..]);
      if first.Some? && rest.Some? then Some([first.value] + rest.value) else None
  }

  function ParseTarget(parse: string -> Option<int>, target: SourceValue): Option<int> {
    match target
    case Str(s) => parse(s)
    case Int(i) => Some(i)
  }

  /** The numbers and the target of a game24 row. */
  function Game24Fields(py: Python, row: SourceRow): Option<(seq<int>, int)> {
    var input, target := Get(row, "input"), Get(row, "target");
    if !IsStr(input) || target.None? then None
    else
      var numbers := ParseAll(py.parseInt, Words(input.value.s));
      var goal := ParseTarget(py.parseInt, target.value);
      if numbers.None? || goal.None? || |numbers.value| != 4 then None else Some((numbers.value, goal.value))
  }

  /** The input, the target and the target value of an equation row. */
  function MebFields(py: Python, row: SourceRow): Option<(string, string, int)> {
    var input, target, value := Get(row, "input"), Get(row, "target"), Get(row, "target_value");
    if !IsStr(input) || !IsStr(target) || value.None? || !value.value.Int? then None
    else if JoinOn(",", py.findNumbers(input.value.s)) == "" then None
    else Some((input.value.s, target.value.s, value.value.i))
  }

  /** The words and the sorted words of a word-sorting row. */
  function WordFields(row: SourceRow): Option<(seq<string>, seq<string>)> {
    var input, target := Get(row, "input"), Get(row, "target");
    if !IsStr(input) || !IsStr(target) then None
    else
      var mark := Find(input.value.s, "List:", 0);
      if mark.None? then None
      else
        var words := Words(Strip(input.value.s[mark.value + 5..]));
        var sortedWords := Words(target.value.s);
        if words == [] || Sort(StringOrder(), words) != sortedWords then None else Some((words, sortedWords))
  }

  function SampleId(task: Task, registryRow: nat): string {
    (match task
     case Game24 => "phase13_main_game24_"
     case MathEquationBalancer => "phase13_main_meb_"
     case WordSorting => "phase13_main_word_sorting_") + Padded(NatDecimal(registryRow))
  }

  function ParseSourceRow(py: Python, task: Task, row: SourceRow, sourceRow: nat, registryRow: nat)
    : Result<MainRow, RegistryError>
  {
    var id := SampleId(task, registryRow);
    match task
    case Game24 => (
      match Game24Fields(py, row)
      case None => Err(Game24SourceRowInvalid)
      case Some(f) => Ok(Game24Row(id, f.0, f.1, NumberSignature(f.0), sourceRow)))
    case MathEquationBalancer => (
      match MebFields(py, row)
      case None => Err(MebSourceRowInvalid)
      case Some(f) => Ok(MebRow(id, f.0, f.1, f.2, JoinOn(",", py.findNumbers(f.0)), sourceRow)))
    case WordSorting => (
      match WordFields(row)
      case None => Err(WordSortingSourceRowInvalid)
      case Some(f) => Ok(WordSortingRow(id, f.0, f.1, WordSignature(f.0), sourceRow)))
  }

  function InvalidRow(task: Task): RegistryError {
    match task
    case Game24 => Game24SourceRowInvalid
    case MathEquationBalancer => MebSourceRowInvalid
    case WordSorting => WordSortingSourceRowInvalid
  }

  predicate Parses(py: Python, task: Task, row: SourceRow) {
    ParseSourceRow(py, task, row, 0, 0).Ok?
  }

  /** What a source row is about, whatever its position in the source and in the registry. */
  function SignatureOf(py: Python, task: Task, row: SourceRow): string {
    match ParseSourceRow(py, task, row, 0, 0)
    case Ok(m) => m.signature
    case Err(_) => ""
  }

  lemma ParseIgnoresPosition(py: Python, task: Task, row: SourceRow, sourceRow: nat, registryRow: nat)
    ensures ParseSourceRow(py, task, row, sourceRow, registryRow).Ok? <==> Parses(py, task, row)
    ensures !Parses(py, task, row) ==>
      ParseSourceRow(py, task, row, sourceRow, registryRow) == Err(InvalidRow(task))
    ensures
      var r := ParseSourceRow(py, task, row, sourceRow, registryRow);
      r.Ok? ==> (
        r.value.signature == SignatureOf(py, task, row) && r.value.sourceRow == sourceRow &&
        r.value.sampleId == SampleId(task, registryRow))
  {
    hide Game24Fields, MebFields, WordFields, NumberSignature, WordSignature, SampleId;
  }

  // ---- which rows parse ----------------------------------------------------------------------------

  lemma {:induction false} ParseAllIff(parse: string -> Option<int>, words: seq<string>, numbers: seq<int>)
    ensures ParseAll(parse, words) == Some(numbers) <==>
      |numbers| == |words| && forall i :: 0 <= i < |words| ==> parse(words[i]) == Some(numbers[i])
  {
    if words != [] {
      var rest := if numbers == [] then [] else numbers[1..];
      ParseAllIff(parse, words[1..], rest);
      if numbers != [] {
        assert numbers == [numbers[0]] + rest;
        assert forall i :: 0 <= i < |rest| ==> rest[i] == numbers[i + 1];
        assert forall i :: 0 < i < |words| ==> words[i] == words[1..][i - 1];
      }
    }
  }

  /** A game24 row gives exactly these entries: four words that are integers, and an integer target. */
  lemma Game24ParsesIff(py: Python, row: SourceRow, sourceRow: nat, registryRow: nat, m: MainRow)
    ensures ParseSourceRow(py, Game24, row, sourceRow, registryRow) == Ok(m) <==>
      && m.Game24Row? && m.sampleId == SampleId(Game24, registryRow) && m.sourceRow == sourceRow
      && m.signature == NumberSignature(m.numbers)
      && "input" in row && row["input"].Str? && "target" in row
      && (var words := Words(row["input"].s);
          |words| == |m.numbers| == 4 && forall i :: 0 <= i < 4 ==> py.parseInt(words[i]) == Some(m.numbers[i]))
      && (row["target"] == Int(m.goal) || (row["target"].Str? && py.parseInt(row["target"].s) == Some(m.goal)))
    ensures ParseSourceRow(py, Game24, row, sourceRow, registryRow).Err? ==>
      ParseSourceRow(py, Game24, row, sourceRow, registryRow).error == Game24SourceRowInvalid
  {
    hide Words, NumberSignature, SampleId, ParseAll;
    if "input" in row && row["input"].Str? {
      var words := Words(row["input"].s);
      if m.Game24Row? {
        ParseAllIff(py.parseInt, words, m.numbers);
      }
      if ParseAll(py.parseInt, words).Some? {
        ParseAllIff(py.parseInt, words, ParseAll(py.parseInt, words).value);
      }
    }
  }

  /** An equation row gives exactly these entries: two texts with a number in the first, and an integer value. */
  lemma MebParsesIff(py: Python, row: SourceRow, sourceRow: nat, registryRow: nat, m: MainRow)
    ensures ParseSourceRow(py, MathEquationBalancer, row, sourceRow, registryRow) == Ok(m) <==>
      && m.MebRow? && m.sampleId == SampleId(MathEquationBalancer, registryRow) && m.sourceRow == sourceRow
      && "input" in row && row["input"] == Str(m.input) && "target" in row && row["target"] == Str(m.target)
      && "target_value" in row && row["target_value"] == Int(m.targetValue)
      && m.signature == JoinOn(",", py.findNumbers(m.input)) && m.signature != ""
    ensures ParseSourceRow(py, MathEquationBalancer, row, sourceRow, registryRow).Err? ==>
      ParseSourceRow(py, MathEquationBalancer, row, sourceRow, registryRow).error == MebSourceRowInvalid
  {
    hide SampleId, JoinOn;
  }

  /** A word-sorting row gives exactly these entries: the words after the first list mark, at least one, and their
      sorted form as the target. */
  lemma WordsParseIff(py: Python, row: SourceRow, sourceRow: nat, registryRow: nat, m: MainRow)
    ensures ParseSourceRow(py, WordSorting, row, sourceRow, registryRow) == Ok(m) <==>
      && m.WordSortingRow? && m.sampleId == SampleId(WordSorting, registryRow) && m.sourceRow == sourceRow
      && m.signature == WordSignature(m.words)
      && "input" in row && row["input"].Str? && "target" in row && row["target"].Str?
      && Find(row["input"].s, "List:", 0).Some?
      && m.words == Words(row["input"].s[Find(row["input"].s, "List:", 0).value + 5..]) && m.words != []
      && m.sortedWords == Words(row["target"].s)
      && SortedBy(StringOrder(), m.sortedWords) && multiset(m.sortedWords) == multiset(m.words)
    ensures ParseSourceRow(py, WordSorting, row, sourceRow, registryRow).Err? ==>
      ParseSourceRow(py, WordSorting, row, sourceRow, registryRow).error == WordSortingSourceRowInvalid
  {
    hide SampleId, Words, WordSignature, Sort, LexLe, Strip;
    if WordFieldsExist(row) {
      var text := row["input"].s[Find(row["input"].s, "List:", 0).value + 5..];
      WordsOfStripped(text);
      StringOrderIsTotal();
      SortedIff(StringOrder(), Words(text), Words(row["target"].s));
    }
  }

  predicate WordFieldsExist(row: SourceRow) {
    "input" in row && row["input"].Str? && "target" in row && row["target"].Str? &&
    Find(row["input"].s, "List:", 0).Some?
  }

  lemma SortedIff<T(!new)>(le: Order<T>, s: seq<T>, sorted: seq<T>)
    requires TotalOrder(le)
    ensures Sort(le, s) == sorted <==> SortedBy(le, sorted) && multiset(sorted) == multiset(s)
  {
    SortSorts(le, s);
    if SortedBy(le, sorted) && multiset(sorted) == multiset(s) {
      SortedIsUnique(le, Sort(le, s), sorted);
    }
  }

  /** Blanks at the ends do not matter for the words. */
  lemma WordsOfStripped(s: string)
    ensures Words(Strip(s)) == Words(s)
  {
    WordsOfStrippedLeft(s);
    WordsOfStrippedRight(StripLeft(s));
  }

  lemma {:induction false} WordsOfStrippedLeft(s: string)
    ensures Words(StripLeft(s)) == Words(s)
  {
    if s != "" && IsSpace(s[0]) {
      WordsOfStrippedLeft(s[1..]);
    }
  }

  lemma {:induction false} WordsOfStrippedRight(s: string)
    ensures Words(StripRight(s)) == Words(s)
  {
    if s != "" && IsSpace(s[|s| - 1]) {
      WordsOfStrippedRight(s[..|s| - 1]);
      WordsDropBlank(s[..|s| - 1], s[|s| - 1]);
      assert s == s[..|s| - 1] + [s[|s| - 1]];
    }
  }

  lemma {:induction false} WordsDropBlank(s: string, blank: char)
    requires IsSpace(blank)
    ensures Words(s + [blank]) == Words(s)
    decreases |s|
  {
    if s == "" {
      assert (s + [blank])[1..] == "";
    } else if IsSpace(s[0]) {
      assert (s + [blank])[1..] == s[1..] + [blank];
      WordsDropBlank(s[1..], blank);
    } else {
      var n := WordLength(s);
      WordLengthIsWord(s);
      var w, rest := s[..n], s[n..];
      WordsStep(w, rest);
      WordsStep(w, rest + [blank]);
      assert s == w + rest && s + [blank] == w + (rest + [blank]);
      WordsDropBlank(rest, blank);
    }
  }

  /** A sample id is the prefix of its task and the registry position in decimal, padded to four digits; so positions
      give distinct ids. */
  lemma SampleIdIsInjective(task: Task, i: nat, j: nat)
    ensures
      var p := match task
        case Game24 => "phase13_main_game24_"
        case MathEquationBalancer => "phase13_main_meb_"
        case WordSorting => "phase13_main_word_sorting_";
      p <= SampleId(task, i) && Value(SampleId(task, i)[|p|..]) == i && |SampleId(task, i)| >= |p| + 4 &&
      (i < 10000 ==> |SampleId(task, i)| == |p| + 4)
    ensures SampleId(task, i) == SampleId(task, j) <==> i == j
  {
    hide Value, NatDecimal, Padded;
    var p := match task
      case Game24 => "phase13_main_game24_"
      case MathEquationBalancer => "phase13_main_meb_"
      case WordSorting => "phase13_main_word_sorting_";
    assert SampleId(task, i)[|p|..] == Padded(NatDecimal(i)) && SampleId(task, j)[|p|..] == Padded(NatDecimal(j));
    ValueOfPadded(NatDecimal(i));
    ValueOfPadded(NatDecimal(j));
    ValueOfDecimal(i);
    ValueOfDecimal(j);
    PaddedLength(NatDecimal(i));
    if i < 10000 {
      ShortDecimal(i);
    }
  }

  // ---- freezing ------------------------------------------------------------------------------------

  datatype Reason = DuplicateCanonicalSignature | RegisteredNonMainSignature

  datatype Exclusion = Exclusion(sourceRow: nat, signature: string, reason: Reason)

  datatype FrozenTaskPool = FrozenTaskPool(
    task: Task, sourceCount: nat, rows: seq<MainRow>, exclusions: seq<Exclusion>)

  function Signatures(py: Python, task: Task, rows: seq<SourceRow>): (s: seq<string>)
    ensures |s| == |rows|
  {
    seq(|rows|, i requires 0 <= i < |rows| => SignatureOf(py, task, rows[i]))
  }

  /** An unregistered signature that no earlier row has. */
  predicate Fresh(sigs: seq<string>, excluded: set<string>, i: nat)
    requires i < |sigs|
  {
    sigs[i] !in excluded && sigs[i] !in sigs[..i]
  }

  /** The source positions below n that are fresh, in order. */
  function Kept(sigs: seq<string>, excluded: set<string>, n: nat): seq<nat>
    requires n <= |sigs|
  {
    if n == 0 then []
    else Kept(sigs, excluded, n - 1) + (if Fresh(sigs, excluded, n - 1) then [n - 1] else [])
  }

  /** The other positions below n, in order. */
  function Dropped(sigs: seq<string>, excluded: set<string>, n: nat): seq<nat>
    requires n <= |sigs|
  {
    if n == 0 then []
    else Dropped(sigs, excluded, n - 1) + (if Fresh(sigs, excluded, n - 1) then [] else [n - 1])
  }

  function ReasonFor(excluded: set<string>, signature: string): Reason {
    if signature in excluded then RegisteredNonMainSignature else DuplicateCanonicalSignature
  }

  /** The registry rows for the source positions in kept. */
  ghost predicate Registered(py: Python, task: Task, rows: seq<SourceRow>, kept: seq<nat>, accepted: seq<MainRow>) {
    |accepted| == |kept| &&
    forall k :: 0 <= k < |kept| ==>
      kept[k] < |rows| && ParseSourceRow(py, task, rows[kept[k]], kept[k] + 1, k + 1) == Ok(accepted[k])
  }

  ghost predicate Excluded(sigs: seq<string>, excluded: set<string>, dropped: seq<nat>, exclusions: seq<Exclusion>) {
    |exclusions| == |dropped| &&
    forall k :: 0 <= k < |dropped| ==>
      dropped[k] < |sigs| &&
      exclusions[k] == Exclusion(dropped[k] + 1, sigs[dropped[k]], ReasonFor(excluded, sigs[dropped[k]]))
  }

  /** The pool that freezing the rows must give. */
  ghost predicate IsPool(
    py: Python, task: Task, rows: seq<SourceRow>, excluded: set<string>, pool: FrozenTaskPool)
  {
    var sigs := Signatures(py, task, rows);
    pool.task == task && pool.sourceCount == |rows| &&
    Registered(py, task, rows, Kept(sigs, excluded, |rows|), pool.rows) &&
    Excluded(sigs, excluded, Dropped(sigs, excluded, |rows|), pool.exclusions)
  }

  lemma {:induction false} KeptIff(sigs: seq<string>, excluded: set<string>, n: nat, i: nat)
    requires n <= |sigs|
    ensures i in Kept(sigs, excluded, n) <==> i < n && Fresh(sigs, excluded, i)
    ensures i in Dropped(sigs, excluded, n) <==> i < n && !Fresh(sigs, excluded, i)
  {
    if n > 0 {
      KeptIff(sigs, excluded, n - 1, i);
    }
  }

  /** The signatures seen so far are those of the kept rows: the unregistered ones. */
  lemma SeenStep(sigs: seq<string>, excluded: set<string>, i: nat, seen: set<string>)
    requires i < |sigs| && seen == Elements(sigs[..i]) - excluded
    ensures Fresh(sigs, excluded, i) <==> sigs[i] !in excluded && sigs[i] !in seen
    ensures Elements(sigs[..i + 1]) - excluded == seen + (if Fresh(sigs, excluded, i) then {sigs[i]} else {})
  {
    assert sigs[..i + 1] == sigs[..i] + [sigs[i]];
    ElementsOfSum(sigs[..i], [sigs[i]]);
    assert Elements([sigs[i]]) == {sigs[i]};
  }

  lemma RegisteredPush(
    py: Python, task: Task, rows: seq<SourceRow>, kept: seq<nat>, accepted: seq<MainRow>, i: nat, row: MainRow)
    requires Registered(py, task, rows, kept, accepted)
    requires i < |rows| && ParseSourceRow(py, task, rows[i], i + 1, |accepted| + 1) == Ok(row)
    ensures Registered(py, task, rows, kept + [i], accepted + [row])
  {
    hide ParseSourceRow;
  }

  lemma KeepNext(sigs: seq<string>, excluded: set<string>, i: nat)
    requires i < |sigs| && Fresh(sigs, excluded, i)
    ensures Kept(sigs, excluded, i + 1) == Kept(sigs, excluded, i) + [i]
    ensures Dropped(sigs, excluded, i + 1) == Dropped(sigs, excluded, i)
  {
    hide Fresh;
  }

  lemma ExcludeNext(
    sigs: seq<string>, excluded: set<string>, i: nat, exclusions: seq<Exclusion>)
    requires i < |sigs| && !Fresh(sigs, excluded, i)
    requires Excluded(sigs, excluded, Dropped(sigs, excluded, i), exclusions)
    ensures
      var next := Exclusion(i + 1, sigs[i], ReasonFor(excluded, sigs[i]));
      Excluded(sigs, excluded, Dropped(sigs, excluded, i + 1), exclusions + [next])
    ensures Kept(sigs, excluded, i + 1) == Kept(sigs, excluded, i)
  {
    hide Fresh;
  }

  lemma FreezeStarts(py: Python, task: Task, rows: seq<SourceRow>, excluded: set<string>)
    ensures Elements(Signatures(py, task, rows)[..0]) - excluded == {}
    ensures Registered(py, task, rows, Kept(Signatures(py, task, rows), excluded, 0), [])
    ensures Excluded(
      Signatures(py, task, rows), excluded, Dropped(Signatures(py, task, rows), excluded, 0), [])
  {
  }

  method FreezeTaskPool(py: Python, task: Task, rows: seq<SourceRow>, excluded: set<string>)
    returns (r: Result<FrozenTaskPool, RegistryError>)
    ensures r.Ok? <==> forall i :: 0 <= i < |rows| ==> Parses(py, task, rows[i])
    ensures r.Ok? ==> IsPool(py, task, rows, excluded, r.value)
    ensures r.Err? ==> r.error == InvalidRow(task)
  {
    hide ParseSourceRow, SignatureOf, Parses, Fresh, Registered, Excluded, Elements;
    FreezeStarts(py, task, rows, excluded);
    var accepted: seq<MainRow> := [];
    var exclusions: seq<Exclusion> := [];
    var seen: set<string> := {};
    ghost var sigs := Signatures(py, task, rows);
    for i := 0 to |rows|
      invariant forall k :: 0 <= k < i ==> Parses(py, task, rows[k])
      invariant seen == Elements(sigs[..i]) - excluded
      invariant Registered(py, task, rows, Kept(sigs, excluded, i), accepted)
      invariant Excluded(sigs, excluded, Dropped(sigs, excluded, i), exclusions)
    {
      ParseIgnoresPosition(py, task, rows[i], i + 1, |accepted| + 1);
      var parsed := ParseSourceRow(py, task, rows[i], i + 1, |accepted| + 1);
      if parsed.Err? {
        return Err(parsed.error);
      }
      var signature := parsed.value.signature;
      SeenStep(sigs, excluded, i, seen);
      if signature in excluded {
        ExcludeNext(sigs, excluded, i, exclusions);
        exclusions := exclusions + [Exclusion(i + 1, signature, RegisteredNonMainSignature)];
        continue;
      }
      if signature in seen {
        ExcludeNext(sigs, excluded, i, exclusions);
        exclusions := exclusions + [Exclusion(i + 1, signature, DuplicateCanonicalSignature)];
        continue;
      }
      KeepNext(sigs, excluded, i);
      RegisteredPush(py, task, rows, Kept(sigs, excluded, i), accepted, i, parsed.value);
      seen := seen + {signature};
      accepted := accepted + [parsed.value];
    }
    assert sigs[..|rows|] == sigs;
    return Ok(FrozenTaskPool(task, |rows|, accepted, exclusions));
  }

  // ---- what a frozen pool guarantees ---------------------------------------------------------------

  predicate Increasing(s: seq<nat>) {
    forall i, j :: 0 <= i < j < |s| ==> s[i] < s[j]
  }

  lemma {:induction false} KeptAndDropped(sigs: seq<string>, excluded: set<string>, n: nat)
    requires n <= |sigs|
    ensures Increasing(Kept(sigs, excluded, n)) && Increasing(Dropped(sigs, excluded, n))
    ensures |Kept(sigs, excluded, n)| + |Dropped(sigs, excluded, n)| == n
    ensures forall k :: 0 <= k < |Kept(sigs, excluded, n)| ==> Kept(sigs, excluded, n)[k] < n
    ensures forall k :: 0 <= k < |Dropped(sigs, excluded, n)| ==> Dropped(sigs, excluded, n)[k] < n
  {
    hide Fresh;
    if n > 0 {
      KeptAndDropped(sigs, excluded, n - 1);
    }
  }

  function SourceRows(rows: seq<MainRow>): (s: seq<nat>)
    ensures |s| == |rows|
  {
    seq(|rows|, k requires 0 <= k < |rows| => rows[k].sourceRow)
  }

  function ExcludedRows(exclusions: seq<Exclusion>): (s: seq<nat>)
    ensures |s| == |exclusions|
  {
    seq(|exclusions|, k requires 0 <= k < |exclusions| => exclusions[k].sourceRow)
  }

  lemma PoolRow(py: Python, task: Task, rows: seq<SourceRow>, excluded: set<string>, pool: FrozenTaskPool, k: nat)
    returns (i: nat)
    requires IsPool(py, task, rows, excluded, pool) && k < |pool.rows|
    ensures i < |rows| && i == Kept(Signatures(py, task, rows), excluded, |rows|)[k]
    ensures Fresh(Signatures(py, task, rows), excluded, i)
    ensures pool.rows[k].signature == Signatures(py, task, rows)[i]
    ensures pool.rows[k].sourceRow == i + 1 && pool.rows[k].sampleId == SampleId(task, k + 1)
    ensures ParseSourceRow(py, task, rows[i], i + 1, k + 1) == Ok(pool.rows[k])
  {
    hide ParseSourceRow, SignatureOf, Parses, Fresh, SampleId;
    var sigs := Signatures(py, task, rows);
    i := Kept(sigs, excluded, |rows|)[k];
    KeptIff(sigs, excluded, |rows|, i);
    ParseIgnoresPosition(py, task, rows[i], i + 1, k + 1);
  }

  /** Every source row is accepted or excluded, never both, and both lists keep the source order. */
  lemma PoolPartitionsSource(
    py: Python, task: Task, rows: seq<SourceRow>, excluded: set<string>, pool: FrozenTaskPool)
    requires IsPool(py, task, rows, excluded, pool)
    ensures |pool.rows| + |pool.exclusions| == pool.sourceCount == |rows|
    ensures Increasing(SourceRows(pool.rows)) && Increasing(ExcludedRows(pool.exclusions))
    ensures forall n :: n in SourceRows(pool.rows) || n in ExcludedRows(pool.exclusions) <==> 1 <= n <= |rows|
    ensures forall n :: !(n in SourceRows(pool.rows) && n in ExcludedRows(pool.exclusions))
  {
    hide ParseSourceRow, SignatureOf, Parses, Fresh, SampleId, Kept, Dropped;
    var sigs := Signatures(py, task, rows);
    KeptAndDropped(sigs, excluded, |rows|);
    var kept, dropped := Kept(sigs, excluded, |rows|), Dropped(sigs, excluded, |rows|);
    forall k | 0 <= k < |pool.rows| ensures SourceRows(pool.rows)[k] == kept[k] + 1 {
      var i := PoolRow(py, task, rows, excluded, pool, k);
    }
    assert forall k :: 0 <= k < |pool.exclusions| ==> ExcludedRows(pool.exclusions)[k] == dropped[k] + 1;
    Shifted(kept, SourceRows(pool.rows));
    Shifted(dropped, ExcludedRows(pool.exclusions));
    forall i: nat
      ensures i in kept <==> i < |rows| && Fresh(sigs, excluded, i)
      ensures i in dropped <==> i < |rows| && !Fresh(sigs, excluded, i)
    {
      KeptIff(sigs, excluded, |rows|, i);
    }
  }

  lemma Shifted(s: seq<nat>, t: seq<nat>)
    requires |s| == |t| && forall k :: 0 <= k < |s| ==> t[k] == s[k] + 1
    ensures forall n: nat :: n in t <==> n >= 1 && n - 1 in s
  {
    forall n: nat | n >= 1 && n - 1 in s ensures n in t {
      var k :| 0 <= k < |s| && s[k] == n - 1;
      assert t[k] == n;
    }
  }

  /** Accepted signatures are distinct and unregistered, and the sample ids are numbered without gaps. */
  lemma AcceptedAreDistinct(
    py: Python, task: Task, rows: seq<SourceRow>, excluded: set<string>, pool: FrozenTaskPool, j: nat, k: nat)
    requires IsPool(py, task, rows, excluded, pool) && j < |pool.rows| && k < |pool.rows|
    ensures pool.rows[k].signature !in excluded && pool.rows[k].sampleId == SampleId(task, k + 1)
    ensures pool.rows[j].signature == pool.rows[k].signature <==> j == k
    ensures pool.rows[j].sampleId == pool.rows[k].sampleId <==> j == k
  {
    hide ParseSourceRow, SignatureOf, SampleId, Kept, Dropped;
    var sigs := Signatures(py, task, rows);
    var a := PoolRow(py, task, rows, excluded, pool, j);
    var b := PoolRow(py, task, rows, excluded, pool, k);
    KeptAndDropped(sigs, excluded, |rows|);
    SampleIdIsInjective(task, j + 1, k + 1);
    if j != k {
      assert a < b ==> sigs[a] in sigs[..b];
      assert b < a ==> sigs[b] in sigs[..a];
    }
  }

  lemma {:induction false} FirstIndex(sigs: seq<string>, i: nat) returns (first: nat)
    requires i < |sigs|
    ensures first <= i && sigs[first] == sigs[i] && sigs[first] !in sigs[..first]
    decreases i
  {
    if sigs[i] in sigs[..i] {
      var j :| 0 <= j < i && sigs[j] == sigs[i];
      first := FirstIndex(sigs, j);
    } else {
      first := i;
    }
  }

  /** Each unregistered signature of the source is accepted, at its first occurrence. */
  lemma FirstOccurrenceIsAccepted(
    py: Python, task: Task, rows: seq<SourceRow>, excluded: set<string>, pool: FrozenTaskPool, i: nat)
    returns (k: nat)
    requires IsPool(py, task, rows, excluded, pool) && i < |rows| && SignatureOf(py, task, rows[i]) !in excluded
    ensures k < |pool.rows| && pool.rows[k].signature == SignatureOf(py, task, rows[i])
    ensures pool.rows[k].sourceRow <= i + 1
    ensures forall j :: 0 <= j < pool.rows[k].sourceRow - 1 ==>
      SignatureOf(py, task, rows[j]) != SignatureOf(py, task, rows[i])
  {
    hide ParseSourceRow, SignatureOf, SampleId, Kept, Dropped;
    var sigs := Signatures(py, task, rows);
    var first := FirstIndex(sigs, i);
    KeptIff(sigs, excluded, |rows|, first);
    k :| 0 <= k < |pool.rows| && Kept(sigs, excluded, |rows|)[k] == first;
    var same := PoolRow(py, task, rows, excluded, pool, k);
    forall j | 0 <= j < first ensures SignatureOf(py, task, rows[j]) != sigs[i] {
      assert sigs[j] in sigs[..first];
    }
  }

  /** A row is excluded because its signature is registered, or because an earlier accepted row has it. */
  lemma ExclusionHasCause(
    py: Python, task: Task, rows: seq<SourceRow>, excluded: set<string>, pool: FrozenTaskPool, k: nat)
    requires IsPool(py, task, rows, excluded, pool) && k < |pool.exclusions|
    ensures
      var e := pool.exclusions[k];
      match e.reason
      case RegisteredNonMainSignature => e.signature in excluded
      case DuplicateCanonicalSignature => (
        e.signature !in excluded &&
        exists j :: 0 <= j < |pool.rows| && pool.rows[j].signature == e.signature &&
          pool.rows[j].sourceRow < e.sourceRow)
  {
    hide ParseSourceRow, SignatureOf, SampleId, Kept, Dropped;
    var sigs := Signatures(py, task, rows);
    var i := Dropped(sigs, excluded, |rows|)[k];
    KeptIff(sigs, excluded, |rows|, i);
    if sigs[i] !in excluded {
      var p :| 0 <= p < i && sigs[p] == sigs[i];
      var j := FirstOccurrenceIsAccepted(py, task, rows, excluded, pool, p);
      assert pool.rows[j].signature == sigs[p] && pool.rows[j].sourceRow <= p + 1;
    }
  }

  /** The source rows behind the accepted rows. */
  function AcceptedSource(rows: seq<SourceRow>, pool: FrozenTaskPool): (s: seq<SourceRow>)
    requires forall k :: 0 <= k < |pool.rows| ==> 1 <= pool.rows[k].sourceRow <= |rows|
    ensures |s| == |pool.rows|
  {
    seq(|pool.rows|, k requires 0 <= k < |pool.rows| => rows[pool.rows[k].sourceRow - 1])
  }

  lemma {:induction false} AllFresh(sigs: seq<string>, excluded: set<string>, n: nat)
    requires n <= |sigs| && forall i :: 0 <= i < n ==> Fresh(sigs, excluded, i)
    ensures Dropped(sigs, excluded, n) == [] && |Kept(sigs, excluded, n)| == n
    ensures forall k :: 0 <= k < n ==> Kept(sigs, excluded, n)[k] == k
  {
    hide Fresh;
    if n > 0 {
      AllFresh(sigs, excluded, n - 1);
    }
  }

  /** The same row up to where it stood in the source. */
  predicate SameRow(a: MainRow, b: MainRow) {
    match (a, b)
    case (Game24Row(i, n, g, s, _), Game24Row(i', n', g', s', _)) => i == i' && n == n' && g == g' && s == s'
    case (MebRow(i, t, g, v, s, _), MebRow(i', t', g', v', s', _)) =>
      i == i' && t == t' && g == g' && v == v' && s == s'
    case (WordSortingRow(i, w, o, s, _), WordSortingRow(i', w', o', s', _)) =>
      i == i' && w == w' && o == o' && s == s'
    case _ => false
  }

  lemma SourceRowIsTheOnlyDifference(
    py: Python, task: Task, row: SourceRow, i: nat, j: nat, registryRow: nat, a: MainRow, b: MainRow)
    requires ParseSourceRow(py, task, row, i, registryRow) == Ok(a)
    requires ParseSourceRow(py, task, row, j, registryRow) == Ok(b)
    ensures SameRow(a, b)
  {
    hide Game24Fields, MebFields, WordFields, NumberSignature, WordSignature, SampleId;
  }

  /** Freezing the accepted rows again accepts them all, under the same sample ids, and excludes nothing. */
  lemma RefreezeExcludesNothing(
    py: Python, task: Task, rows: seq<SourceRow>, excluded: set<string>, pool: FrozenTaskPool,
    again: FrozenTaskPool)
    requires IsPool(py, task, rows, excluded, pool)
    requires forall k :: 0 <= k < |pool.rows| ==> 1 <= pool.rows[k].sourceRow <= |rows|
    requires IsPool(py, task, AcceptedSource(rows, pool), excluded, again)
    ensures again.exclusions == [] && |again.rows| == |pool.rows|
    ensures forall k :: 0 <= k < |pool.rows| ==> SameRow(pool.rows[k], again.rows[k])
  {
    hide ParseSourceRow, SignatureOf, SampleId, Kept, Dropped, SameRow;
    var source := AcceptedSource(rows, pool);
    var sigs := Signatures(py, task, source);
    forall k | 0 <= k < |pool.rows|
      ensures source[k] == rows[pool.rows[k].sourceRow - 1] && sigs[k] == pool.rows[k].signature
    {
      var i := PoolRow(py, task, rows, excluded, pool, k);
    }
    forall k | 0 <= k < |sigs| ensures Fresh(sigs, excluded, k) {
      AcceptedAreDistinct(py, task, rows, excluded, pool, k, k);
      forall j | 0 <= j < k ensures sigs[j] != sigs[k] {
        AcceptedAreDistinct(py, task, rows, excluded, pool, j, k);
      }
    }
    AllFresh(sigs, excluded, |sigs|);
    forall k | 0 <= k < |pool.rows| ensures SameRow(pool.rows[k], again.rows[k]) {
      var i := PoolRow(py, task, rows, excluded, pool, k);
      var j := PoolRow(py, task, source, excluded, again, k);
      SourceRowIsTheOnlyDifference(py, task, rows[i], i + 1, k + 1, k + 1, pool.rows[k], again.rows[k]);
    }
  }

  // ---- what equal signatures mean ------------------------------------------------------------------

  /** Two game24 source rows get the same signature exactly when their numbers are a permutation of each other. */
  lemma Game24SignatureIff(py: Python, a: SourceRow, b: SourceRow)
    requires Game24Fields(py, a).Some? && Game24Fields(py, b).Some?
    ensures SignatureOf(py, Game24, a) == SignatureOf(py, Game24, b) <==>
      multiset(Game24Fields(py, a).value.0) == multiset(Game24Fields(py, b).value.0)
  {
    hide NumberSignature, SampleId;
    NumberSignatureIff(Game24Fields(py, a).value.0, Game24Fields(py, b).value.0);
  }

  /** Two equation rows get the same signature exactly when they have the same numbers in the same order. */
  lemma MebSignatureIff(py: Python, a: SourceRow, b: SourceRow)
    requires MebFields(py, a).Some? && MebFields(py, b).Some?
    requires forall s, i :: 0 <= i < |py.findNumbers(s)| ==> ',' !in py.findNumbers(s)[i]
    ensures SignatureOf(py, MathEquationBalancer, a) == SignatureOf(py, MathEquationBalancer, b) <==>
      py.findNumbers(MebFields(py, a).value.0) == py.findNumbers(MebFields(py, b).value.0)
  {
    hide SampleId;
    JoinPlain(',', py.findNumbers(MebFields(py, a).value.0), py.findNumbers(MebFields(py, b).value.0));
  }
}
