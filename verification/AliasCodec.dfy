/**
 The source-alias codec of the DC-RS curator: archive ids are shown as src01, src02, ..., the model returns a
 cheatsheet with the aliases it used, and the reply is parsed and resolved back to archive ids.
 */
module AliasCodec {
  import opened Common
  import opened Text

  const MAX_ALIASES := 99
  const OPEN := "<cheatsheet>"
  const CLOSE := "</cheatsheet>"
  const START_TAG := "<source_ids>"
  const END_TAG := "</source_ids>"

  datatype Error = InvalidExplicitSourceIds | ImplicitParentUnion

  // ---- aliases -------------------------------------------------------------------------------------

  function Alias(index: nat): string
    requires index < 100
  {
    "src" + [Digit(index / 10), Digit(index % 10)]
  }

  lemma AliasIsInjective(i: nat, j: nat)
    requires i < 100 && j < 100 && Alias(i) == Alias(j)
    ensures i == j
  {
    assert Alias(i)[3] == Digit(i / 10) && Alias(i)[4] == Digit(i % 10);
    assert Alias(j)[3] == Digit(j / 10) && Alias(j)[4] == Digit(j % 10);
    DigitIsInjective(i / 10, j / 10);
    DigitIsInjective(i % 10, j % 10);
  }

  lemma AliasesDiffer(i: nat, j: nat)
    requires i < 100 && j < 100 && i != j
    ensures Alias(i) != Alias(j)
  {
    if Alias(i) == Alias(j) {
      AliasIsInjective(i, j);
    }
  }

  datatype AliasTable = AliasTable(bindings: seq<(string, Id)>)

  /** The k-th source id (from 0) is shown as alias k + 1. */
  function Bindings(ids: seq<Id>): seq<(string, Id)>
    requires |ids| <= MAX_ALIASES
  {
    seq(|ids|, k requires 0 <= k < |ids| => (Alias(k + 1), ids[k]))
  }

  function FromSourceIds(ids: seq<Id>): Result<AliasTable, Error> {
    if |ids| > MAX_ALIASES || !Distinct(ids) || "" in ids then Err(InvalidExplicitSourceIds)
    else Ok(AliasTable(Bindings(ids)))
  }

  /** Up to 99 distinct, non-empty ids get the aliases src01, src02, ... in their order; other lists are refused. */
  lemma AliasTableIs(ids: seq<Id>)
    ensures FromSourceIds(ids).Ok? <==>
      |ids| <= 99 && "" !in ids && forall i, j :: 0 <= i < j < |ids| ==> ids[i] != ids[j]
    ensures FromSourceIds(ids).Ok? ==>
      var b := FromSourceIds(ids).value.bindings;
      |b| == |ids| && forall k :: 0 <= k < |ids| ==>
        b[k] == ("src" + (if k < 9 then "0" else "") + NatDecimal(k + 1), ids[k])
  {
    hide Alias, NatDecimal;
    if FromSourceIds(ids).Ok? {
      forall k | 0 <= k < |ids|
        ensures FromSourceIds(ids).value.bindings[k] ==
          ("src" + (if k < 9 then "0" else "") + NatDecimal(k + 1), ids[k])
      {
        AliasIsNumbered(k + 1);
      }
    }
  }

  lemma AliasIsNumbered(index: nat)
    requires 0 < index < 100
    ensures Alias(index) == "src" + (if index < 10 then "0" else "") + NatDecimal(index)
  {
    assert index < 10 ==> NatDecimal(index) == [Digit(index)] && index / 10 == 0;
    assert index >= 10 ==> NatDecimal(index) == [Digit(index / 10)] + [Digit(index % 10)];
  }

  /** `dict(bindings)[alias]`. */
  function Lookup(bindings: seq<(string, Id)>, alias: string): Option<Id> {
    if bindings == [] then None
    else
      var last := bindings[|bindings| - 1];
      if last.0 == alias then Some(last.1) else Lookup(bindings[..|bindings| - 1], alias)
  }

  lemma {:induction false} LookupFinds(ids: seq<Id>, k: nat)
    requires |ids| <= MAX_ALIASES && k < |ids|
    ensures Lookup(Bindings(ids), Alias(k + 1)) == Some(ids[k])
  {
    var n := |ids| - 1;
    if k < n {
      AliasesDiffer(n + 1, k + 1);
      assert Bindings(ids)[..n] == Bindings(ids[..n]);
      LookupFinds(ids[..n], k);
    }
  }

  lemma {:induction false} LookupMisses(bindings: seq<(string, Id)>, alias: string)
    ensures Lookup(bindings, alias).None? <==> forall k :: 0 <= k < |bindings| ==> bindings[k].0 != alias
  {
    if bindings != [] {
      LookupMisses(bindings[..|bindings| - 1], alias);
      assert forall k :: 0 <= k < |bindings| - 1 ==> bindings[..|bindings| - 1][k] == bindings[k];
    }
  }

  function Resolve(table: AliasTable, aliases: seq<string>): Result<seq<Id>, Error> {
    if !Distinct(aliases) || exists i :: 0 <= i < |aliases| && Lookup(table.bindings, aliases[i]).None?
    then Err(InvalidExplicitSourceIds)
    else Ok(seq(|aliases|, i requires 0 <= i < |aliases| && Lookup(table.bindings, aliases[i]).Some? =>
      Lookup(table.bindings, aliases[i]).value))
  }

  ghost predicate KnownAlias(table: AliasTable, alias: string) {
    exists k :: 0 <= k < |table.bindings| && table.bindings[k].0 == alias
  }

  /** Exactly the lists with an unknown or a repeated alias are rejected. */
  lemma ResolveRejects(table: AliasTable, aliases: seq<string>)
    ensures Resolve(table, aliases).Err? <==>
      !Distinct(aliases) || exists i :: 0 <= i < |aliases| && !KnownAlias(table, aliases[i])
  {
    forall i | 0 <= i < |aliases| {
      LookupMisses(table.bindings, aliases[i]);
    }
  }

  /** Everything an alias list resolves to is one of the source ids, without repetition. */
  lemma ResolvedIdsAreSources(ids: seq<Id>, aliases: seq<string>)
    requires FromSourceIds(ids).Ok? && Resolve(FromSourceIds(ids).value, aliases).Ok?
    ensures var r := Resolve(FromSourceIds(ids).value, aliases).value;
      |r| == |aliases| && Distinct(r) && forall i :: 0 <= i < |r| ==> r[i] in ids
  {
    var table := FromSourceIds(ids).value;
    var r := Resolve(table, aliases).value;
    forall i | 0 <= i < |aliases| ensures r[i] in ids {
      var k := AliasSource(ids, aliases[i]);
    }
    forall i, j | 0 <= i < j < |aliases| ensures r[i] != r[j] {
      var k := AliasSource(ids, aliases[i]);
      var l := AliasSource(ids, aliases[j]);
    }
  }

  lemma AliasSource(ids: seq<Id>, alias: string) returns (k: nat)
    requires |ids| <= MAX_ALIASES && Lookup(Bindings(ids), alias).Some?
    ensures k < |ids| && alias == Alias(k + 1) && Lookup(Bindings(ids), alias) == Some(ids[k])
  {
    LookupMisses(Bindings(ids), alias);
    k :| 0 <= k < |Bindings(ids)| && Bindings(ids)[k].0 == alias;
    LookupFinds(ids, k);
  }

  // ---- parsing the tag -----------------------------------------------------------------------------

  /** What a JSON decoder says about a text; the decoder itself is not part of this model. */
  datatype Json = Malformed | StringList(items: seq<string>) | ToolAction | OtherJson

  type Decoder = string -> Json

  /** No JSON text starts with the letter s. */
  ghost predicate RejectsAliases(json: Decoder) {
    forall s: string :: s != "" && s[0] == 's' ==> json(s) == Malformed
  }

  /** No JSON list ends with a closing angle bracket. */
  ghost predicate NoListEndsInTag(json: Decoder) {
    forall s: string :: s != "" && s[|s| - 1] == '>' ==> !json(s).StringList?
  }

  function StripAll(parts: seq<string>): seq<string> {
    Map(Strip, parts)
  }

  /** The value between the tags: a JSON list, or else a comma-separated one. */
  function ParseValue(json: Decoder, value: string): Result<seq<string>, Error> {
    if value == "" then Ok([])
    else
      match json(value)
      case StringList(items) =>
        if exists i :: 0 <= i < |items| && Strip(items[i]) == "" then Err(InvalidExplicitSourceIds)
        else Ok(StripAll(items))
      case Malformed =>
        var items := StripAll(SplitOn(',', value));
        if "" in items then Err(InvalidExplicitSourceIds) else Ok(items)
      case _ => Err(InvalidExplicitSourceIds)
  }

  function ExplicitSourceIds(json: Decoder, output: string): Result<seq<string>, Error> {
    var start := Find(output, START_TAG, 0);
    if start.None? then Ok([])
    else
      var from := start.value + |START_TAG|;
      var end := Find(output, END_TAG, from);
      if end.None? then Err(InvalidExplicitSourceIds)
      else
        ParseValue(json, Strip(output[from..end.value]))
  }

  // ---- printing a selection ------------------------------------------------------------------------

  function Aliases(sel: seq<nat>): seq<string>
    requires forall i :: 0 <= i < |sel| ==> sel[i] < 99
  {
    seq(|sel|, i requires 0 <= i < |sel| => Alias(sel[i] + 1))
  }

  /** A comma and any blanks after it. */
  predicate Separator(sep: string) {
    |sep| >= 1 && sep[0] == ',' && Blank(sep[1..])
  }

  lemma AliasShape(index: nat)
    requires index < 100
    ensures var a := Alias(index);
      |a| == 5 && a[0] == 's' && !IsSpace(a[0]) && !IsSpace(a[4]) && ',' !in a && '<' !in a && '>' !in a && '|' !in a
  {
    var a := Alias(index);
    assert a[0] == 's' && a[1] == 'r' && a[2] == 'c' && a[3] == Digit(index / 10) && a[4] == Digit(index % 10);
    forall k | 0 <= k < |a| ensures a[k] !in {',', '<', '>', '|'} {}
  }

  predicate TagFree(s: string) {
    '<' !in s && '>' !in s
  }

  /** What the parser needs to know about a printed selection. */
  ghost predicate Printed(text: string, gap: string, aliases: seq<string>) {
    && StripAll(SplitOn(',', text)) == aliases && TagFree(text)
    && |text| >= |gap| + 5 && text[|gap|] == 's' && !IsSpace(text[|text| - 1])
  }

  lemma PrintedOne(gap: string, index: nat)
    requires index < 100 && Blank(gap) && ',' !in gap && TagFree(gap)
    ensures Printed(gap + Alias(index), gap, [Alias(index)])
    ensures ',' !in gap + Alias(index)
  {
    AliasShape(index);
    StripGap(gap, Alias(index), "");
    assert gap + Alias(index) + "" == gap + Alias(index);
    SplitNoSep(',', gap + Alias(index));
  }

  lemma PrintedMore(gap: string, index: nat, sep: string, rest: string, aliases: seq<string>)
    requires index < 100 && Blank(gap) && ',' !in gap && TagFree(gap)
    requires Separator(sep) && TagFree(sep) && Printed(sep[1..] + rest, sep[1..], aliases)
    ensures Printed(gap + (Alias(index) + sep + rest), gap, [Alias(index)] + aliases)
  {
    PrintedOne(gap, index);
    var first, tail := gap + Alias(index), sep[1..] + rest;
    var text := gap + (Alias(index) + sep + rest);
    assert sep == [','] + sep[1..];
    assert text == first + [','] + tail;
    SplitConcat(',', first, tail);
    SplitNoSep(',', first);
    assert SplitOn(',', text) == [first] + SplitOn(',', tail);
    assert StripAll(SplitOn(',', text)) == StripAll([first]) + StripAll(SplitOn(',', tail));
    AliasShape(index);
    assert text[|gap|] == Alias(index)[0];
  }

  /** A printed selection splits back into its aliases, whatever blanks follow the commas. */
  lemma {:induction false} PrintedSplits(sep: string, sel: seq<nat>, gap: string)
    requires Separator(sep) && ',' !in sep[1..] && TagFree(sep)
    requires sel != [] && Blank(gap) && ',' !in gap && TagFree(gap)
    requires forall i :: 0 <= i < |sel| ==> sel[i] < 99
    ensures Printed(gap + JoinOn(sep, Aliases(sel)), gap, Aliases(sel))
    decreases |sel|
  {
    if |sel| == 1 {
      PrintedOne(gap, sel[0] + 1);
      assert Aliases(sel) == [Alias(sel[0] + 1)];
    } else {
      assert Aliases(sel) == [Alias(sel[0] + 1)] + Aliases(sel[1..]);
      assert Aliases(sel)[1..] == Aliases(sel[1..]);
      PrintedSplits(sep, sel[1..], sep[1..]);
      PrintedMore(gap, sel[0] + 1, sep, JoinOn(sep, Aliases(sel[1..])), Aliases(sel[1..]));
    }
  }

  // ---- the whole reply -----------------------------------------------------------------------------

  datatype ParserStatus = Accepted | PreservedEmpty | PreservedInvalidGrammar

  datatype LineageStatus = Exact | Unavailable | Approximate

  datatype Candidate = Candidate(
    content: string, status: ParserStatus, sourceIds: seq<Id>, retrieved: seq<Id>, lineage: LineageStatus)

  /** The length of the longest suffix without a tag character. */
  function TagFreeTail(s: string): (n: nat)
    ensures n <= |s|
  {
    if s != "" && s[|s| - 1] !in {'<', '>'} then TagFreeTail(s[..|s| - 1]) + 1 else 0
  }

  predicate Wrapped(s: string, before: string, after: string) {
    |s| >= |before| + |after| && before <= s && s[|s| - |after|..] == after
  }

  /** The whole-response pattern: a cheatsheet element, then at most one source-id element and nothing else. */
  function WholeCheatsheet(output: string): Option<string> {
    if Wrapped(output, OPEN, CLOSE) then Some(output[|OPEN|..|output| - |CLOSE|])
    else if Wrapped(output, "", END_TAG) then
      var body := output[..|output| - |END_TAG|];
      var head := body[..|body| - TagFreeTail(body)];
      if Wrapped(head, OPEN, CLOSE + START_TAG) then Some(head[|OPEN|..|head| - |CLOSE + START_TAG|]) else None
    else None
  }

  /** curate_pre_generation in its strict form, which the core baseline uses. */
  function Curate(
    json: Decoder, output: string, fallback: string, retrieved: seq<Id>, inferred: seq<Id>, table: AliasTable)
    : Result<Candidate, Error>
  {
    if inferred != [] then Err(ImplicitParentUnion)
    else
      match WholeCheatsheet(output)
      case None => Ok(Candidate(fallback, PreservedInvalidGrammar, [], retrieved, Unavailable))
      case Some(inner) =>
        match ExplicitSourceIds(json, output)
        case Err(e) => Err(e)
        case Ok(aliases) =>
          match Resolve(table, aliases)
          case Err(e) => Err(e)
          case Ok(ids) =>
            if "" in ids then Err(InvalidExplicitSourceIds)
            else
              var kept := Strip(inner) != "";
              Ok(Candidate(
                if kept then output else fallback, if kept then Accepted else PreservedEmpty,
                ids, retrieved, if ids == [] then Unavailable else Exact))
  }

  // ---- round trip ----------------------------------------------------------------------------------

  /** The reply that names the selected sources. */
  function Print(content: string, sep: string, sel: seq<nat>): string
    requires forall i :: 0 <= i < |sel| ==> sel[i] < 99
  {
    OPEN + content + CLOSE + START_TAG + JoinOn(sep, Aliases(sel)) + END_TAG
  }

  lemma {:induction false} TagFreeTailIs(s: string, text: string)
    requires TagFree(text) && s != "" && s[|s| - 1] in {'<', '>'}
    ensures TagFreeTail(s + text) == |text|
    decreases |text|
  {
    var all, n := s + text, |text|;
    if n > 0 {
      assert all[..|all| - 1] == s + text[..n - 1];
      assert all[|all| - 1] == text[n - 1];
      TagFreeTailIs(s, text[..n - 1]);
    } else {
      assert all == s;
    }
  }

  lemma WrappedParts(before: string, content: string, after: string)
    ensures Wrapped(before + content + after, before, after)
    ensures var s := before + content + after; s[|before|..|s| - |after|] == content
  {
  }

  /** Two texts that end differently one place before the end cannot both be suffixes. */
  lemma NotWrapped(s: string, end: string, before: string, after: string)
    requires |end| >= 2 && |after| >= 2 && end[|end| - 2] != after[|after| - 2]
    ensures !Wrapped(s + end, before, after)
  {
    var all := s + end;
    assert all[|all| - 2] == end[|end| - 2];
    if |all| >= |after| {
      assert all[|all| - |after|..][|after| - 2] == all[|all| - 2];
    }
  }

  /** The pattern recovers the content from a printed reply. */
  lemma WholeOfPrinted(content: string, text: string)
    requires TagFree(text)
    ensures WholeCheatsheet(OPEN + content + CLOSE + START_TAG + text + END_TAG) == Some(content)
  {
    var head := OPEN + content + (CLOSE + START_TAG);
    var body := head + text;
    var output := body + END_TAG;
    assert output == OPEN + content + CLOSE + START_TAG + text + END_TAG;
    NotWrapped(body, END_TAG, OPEN, CLOSE);
    WrappedParts("", body, END_TAG);
    assert "" + body + END_TAG == output;
    assert output[..|output| - |END_TAG|] == body;
    assert head[|head| - 1] == (CLOSE + START_TAG)[|CLOSE + START_TAG| - 1] == '>';
    TagFreeTailIs(head, text);
    assert body[..|body| - |text|] == head;
    WrappedParts(OPEN, content, CLOSE + START_TAG);
  }

  lemma {:induction false} TailIsTagFree(s: string)
    ensures TagFree(s[|s| - TagFreeTail(s)..])
  {
    if s != "" && s[|s| - 1] !in {'<', '>'} {
      TailIsTagFree(s[..|s| - 1]);
    }
  }

  /** Which replies the whole-response pattern accepts: one cheatsheet element, and after it nothing but at most one
      source element without angle brackets in it. */
  lemma WholeCheatsheetIff(output: string, content: string)
    ensures WholeCheatsheet(output) == Some(content) <==>
      output == "<cheatsheet>" + content + "</cheatsheet>" ||
      exists text :: TagFree(text) &&
        output == "<cheatsheet>" + content + "</cheatsheet>" + "<source_ids>" + text + "</source_ids>"
  {
    hide WholeCheatsheet, TagFree;
    if WholeCheatsheet(output) == Some(content) {
      AcceptedShape(output, content);
    }
    if output == OPEN + content + CLOSE {
      WholeOfUntagged(content);
    }
    if text :|
      TagFree(text) && output == "<cheatsheet>" + content + "</cheatsheet>" + "<source_ids>" + text + "</source_ids>"
    {
      WholeOfPrinted(content, text);
    }
  }

  lemma AcceptedShape(output: string, content: string)
    requires WholeCheatsheet(output) == Some(content)
    ensures output == OPEN + content + CLOSE ||
      exists text :: TagFree(text) && output == OPEN + content + CLOSE + START_TAG + text + END_TAG
  {
    hide TagFree, TagFreeTail, Wrapped;
    if Wrapped(output, OPEN, CLOSE) {
      WrappedIs(output, OPEN, CLOSE);
    } else {
      WrappedIs(output, "", END_TAG);
      var body := output[..|output| - |END_TAG|];
      var n := TagFreeTail(body);
      var head, text := body[..|body| - n], body[|body| - n..];
      TailIsTagFree(body);
      WrappedIs(head, OPEN, CLOSE + START_TAG);
      Regroup(content, text, body);
    }
  }

  lemma Regroup(content: string, text: string, body: string)
    requires body == OPEN + content + (CLOSE + START_TAG) + text
    ensures "" + body + END_TAG == OPEN + content + CLOSE + START_TAG + text + END_TAG
  {
  }

  lemma WrappedIs(s: string, before: string, after: string)
    requires Wrapped(s, before, after)
    ensures |s| >= |before| + |after|
    ensures s == before + s[|before|..|s| - |after|] + after
  {
  }

  lemma WholeOfUntagged(content: string)
    ensures WholeCheatsheet(OPEN + content + CLOSE) == Some(content)
  {
    WrappedParts(OPEN, content, CLOSE);
  }

  /** The text has its only copy of c at the front, followed by something else than d. */
  predicate OpensOnce(s: string, c: char, d: char) {
    |s| >= 2 && s[0] == c && s[1] != d && forall k :: 1 <= k < |s| ==> s[k] != c
  }

  /** Putting a text between two other tags creates no new copy of a pattern. */
  lemma NoCopyAcross(a: string, content: string, b: string, pattern: string)
    requires |pattern| >= 2 && FirstOnly(pattern)
    requires OpensOnce(a, pattern[0], pattern[1]) && OpensOnce(b, pattern[0], pattern[1])
    requires forall i :: !At(content, pattern, i)
    ensures forall i :: !At(a + content + b, pattern, i)
  {
    var s, n := a + content + b, |pattern|;
    forall i: nat ensures !At(s, pattern, i) {
      if i + n <= |s| {
        var copy := s[i..i + n];
        assert copy[0] == s[i] && copy[1] == s[i + 1];
        if i < |a| {
          assert s[i] == a[i] && (i == 0 ==> s[i + 1] == a[1]);
          assert copy != pattern;
        } else if i >= |a| + |content| {
          var j := i - |a| - |content|;
          assert s[i] == b[j] && (j == 0 ==> s[i + 1] == b[1]);
          assert copy != pattern;
        } else {
          if i + n <= |a| + |content| {
            assert copy == content[i - |a|..i - |a| + n];
            assert !At(content, pattern, i - |a|);
          } else {
            assert copy[|a| + |content| - i] == s[|a| + |content|] == b[0];
          }
          assert copy != pattern;
        }
      }
    }
  }

  lemma {:induction false} ParsePrinted(json: Decoder, pre: string, text: string, aliases: seq<string>)
    requires RejectsAliases(json) && forall i :: !At(pre, START_TAG, i)
    requires if aliases == [] then text == "" else Printed(text, "", aliases) && "" !in aliases
    requires TagFree(text)
    ensures ExplicitSourceIds(json, pre + START_TAG + text + END_TAG) == Ok(aliases)
  {
    ParseTag(json, pre, text, "");
    assert pre + START_TAG + text + END_TAG + "" == pre + START_TAG + text + END_TAG;
    if aliases != [] {
      StripGap("", text, "");
      assert "" + text + "" == text;
    }
  }

  lemma ParseTag(json: Decoder, pre: string, text: string, post: string)
    requires TagFree(text) && forall i :: !At(pre, START_TAG, i)
    ensures ExplicitSourceIds(json, pre + START_TAG + text + END_TAG + post) == ParseValue(json, Strip(text))
  {
    hide ParseValue, Strip, Find;
    var rest := text + END_TAG + post;
    var output := pre + START_TAG + rest;
    assert output == pre + START_TAG + text + END_TAG + post;
    FindAfterPrefix(pre, START_TAG, rest, 0);
    var from, end := |pre| + |START_TAG|, |pre| + |START_TAG| + |text|;
    assert output[end..end + |END_TAG|] == END_TAG;
    forall i | from <= i < end ensures output[i] != END_TAG[0] {
      assert output[i] == text[i - from];
    }
    FindSkips(output, END_TAG, from, end);
    assert output[from..end] == text;
  }

  /** Without an opening tag there are no source ids; an opening tag that is never closed is an error. */
  lemma TagPresence(json: Decoder, output: string, s: nat)
    ensures (forall i :: !At(output, "<source_ids>", i)) ==> ExplicitSourceIds(json, output) == Ok([])
    ensures
      (At(output, "<source_ids>", s) && (forall i :: 0 <= i < s ==> !At(output, "<source_ids>", i)) &&
       (forall e :: s + 12 <= e ==> !At(output, "</source_ids>", e)))
      ==> ExplicitSourceIds(json, output) == Err(InvalidExplicitSourceIds)
  {
    hide ParseValue, Strip;
    if At(output, "<source_ids>", s) && forall i :: 0 <= i < s ==> !At(output, "<source_ids>", i) {
      FindIs(output, START_TAG, 0, s);
    }
  }

  /** How the text between the tags is read: as nothing when it is blank, as a JSON list of strings, or else, when it is
      not JSON at all, as a list between commas; blanks around the items do not count, and an item must not be blank. */
  lemma TagIsRead(json: Decoder, content: string, text: string)
    requires TagFree(text) && forall i :: !At(content, START_TAG, i)
    ensures
      var r := ExplicitSourceIds(
        json, "<cheatsheet>" + content + "</cheatsheet>" + "<source_ids>" + text + "</source_ids>");
      if Blank(text) then r == Ok([])
      else
        match json(Strip(text))
        case StringList(items) =>
          if exists i :: 0 <= i < |items| && Blank(items[i]) then r == Err(InvalidExplicitSourceIds)
          else r == Ok(Map(Strip, items))
        case Malformed =>
          var items := SplitOn(',', Strip(text));
          if exists i :: 0 <= i < |items| && Blank(items[i]) then r == Err(InvalidExplicitSourceIds)
          else r == Ok(Map(Strip, items))
        case _ => r == Err(InvalidExplicitSourceIds)
  {
    hide Strip, ExplicitSourceIds, Find, SplitOn, Blank;
    NoCopyAcross(OPEN, content, CLOSE, START_TAG);
    ParseTag(json, OPEN + content + CLOSE, text, "");
    var output := "<cheatsheet>" + content + "</cheatsheet>" + "<source_ids>" + text + "</source_ids>";
    assert OPEN + content + CLOSE + START_TAG + text + END_TAG + "" == output;
    StripNonBlank(text);
    forall s: string ensures Strip(s) == "" <==> Blank(s) {
      StripNonBlank(s);
    }
    BlankItem(SplitOn(',', Strip(text)));
  }

  lemma BlankItem(items: seq<string>)
    ensures "" in StripAll(items) <==> exists i :: 0 <= i < |items| && Blank(items[i])
  {
    hide Strip, Blank;
    forall i | 0 <= i < |items| ensures Strip(items[i]) == "" <==> Blank(items[i]) {
      StripNonBlank(items[i]);
    }
    if i :| 0 <= i < |items| && Blank(items[i]) {
      assert StripAll(items)[i] == "";
    }
  }

  /** A selection that is written as a JSON list of its aliases is read back as well. */
  lemma {:induction false} JsonListRoundTrips(
    json: Decoder, ids: seq<Id>, sel: seq<nat>, content: string, text: string, fallback: string)
    requires FromSourceIds(ids).Ok? && Distinct(sel) && forall i :: 0 <= i < |sel| ==> sel[i] < |ids|
    requires TagFree(text) && !Blank(text) && json(Strip(text)) == StringList(Aliases(sel))
    requires !Blank(content) && forall i :: !At(content, START_TAG, i)
    ensures
      var output := OPEN + content + CLOSE + START_TAG + text + END_TAG;
      Curate(json, output, fallback, ids, [], FromSourceIds(ids).value) ==
      Ok(Candidate(
        output, Accepted, seq(|sel|, i requires 0 <= i < |sel| => ids[sel[i]]), ids,
        if sel == [] then Unavailable else Exact))
  {
    hide WholeCheatsheet, ExplicitSourceIds, Resolve, Strip, Alias, Blank;
    TagIsRead(json, content, text);
    StrippedAliases(sel);
    WholeOfPrinted(content, text);
    StripNonBlank(content);
    ResolvePrinted(ids, sel);
  }

  lemma StrippedAliases(sel: seq<nat>)
    requires forall i :: 0 <= i < |sel| ==> sel[i] < 99
    ensures Map(Strip, Aliases(sel)) == Aliases(sel)
    ensures forall i :: 0 <= i < |sel| ==> !Blank(Aliases(sel)[i])
  {
    hide Strip;
    forall i | 0 <= i < |sel| ensures Strip(Aliases(sel)[i]) == Aliases(sel)[i] && !Blank(Aliases(sel)[i]) {
      AliasShape(sel[i] + 1);
      StripGap("", Alias(sel[i] + 1), "");
      assert "" + Alias(sel[i] + 1) + "" == Alias(sel[i] + 1);
    }
  }

  lemma AliasesAreDistinct(sel: seq<nat>)
    requires Distinct(sel) && forall i :: 0 <= i < |sel| ==> sel[i] < 99
    ensures Distinct(Aliases(sel)) && "" !in Aliases(sel)
  {
    forall i, j | 0 <= i < j < |sel| ensures Aliases(sel)[i] != Aliases(sel)[j] {
      AliasesDiffer(sel[i] + 1, sel[j] + 1);
    }
  }

  /** Curating the printed reply gives the selected ids in order, with exact lineage. */
  ghost predicate RoundTrips(
    json: Decoder, ids: seq<Id>, sel: seq<nat>, content: string, sep: string, fallback: string)
    requires FromSourceIds(ids).Ok? && forall i :: 0 <= i < |sel| ==> sel[i] < |ids|
  {
    var output := Print(content, sep, sel);
    var chosen := seq(|sel|, i requires 0 <= i < |sel| => ids[sel[i]]);
    Curate(json, output, fallback, ids, [], FromSourceIds(ids).value) ==
    Ok(Candidate(output, Accepted, chosen, ids, if sel == [] then Unavailable else Exact))
  }

  /** Printing any duplicate-free selection, parsing the reply and resolving it gives the selected ids in order. */
  lemma {:induction false} CurateRoundTrip(
    json: Decoder, ids: seq<Id>, sel: seq<nat>, content: string, sep: string, fallback: string)
    requires RejectsAliases(json) && FromSourceIds(ids).Ok?
    requires Distinct(sel) && forall i :: 0 <= i < |sel| ==> sel[i] < |ids|
    requires Separator(sep) && ',' !in sep[1..] && TagFree(sep)
    requires !Blank(content) && forall i :: !At(content, START_TAG, i)
    ensures RoundTrips(json, ids, sel, content, sep, fallback)
  {
    hide WholeCheatsheet, ExplicitSourceIds, Resolve, JoinOn, Strip, Alias;
    PrintedIsTagFree(sep, sel);
    WholeOfPrinted(content, JoinOn(sep, Aliases(sel)));
    SourceIdsOfPrinted(json, content, sep, sel);
    StripNonBlank(content);
    ResolvePrinted(ids, sel);
  }

  lemma PrintedIsTagFree(sep: string, sel: seq<nat>)
    requires Separator(sep) && ',' !in sep[1..] && TagFree(sep)
    requires forall i :: 0 <= i < |sel| ==> sel[i] < 99
    ensures TagFree(JoinOn(sep, Aliases(sel)))
    ensures sel != [] ==> Printed(JoinOn(sep, Aliases(sel)), "", Aliases(sel))
  {
    if sel != [] {
      PrintedSplits(sep, sel, "");
      assert "" + JoinOn(sep, Aliases(sel)) == JoinOn(sep, Aliases(sel));
    }
  }

  /** The tag parser reads back exactly the printed aliases. */
  lemma SourceIdsOfPrinted(json: Decoder, content: string, sep: string, sel: seq<nat>)
    requires RejectsAliases(json) && Separator(sep) && ',' !in sep[1..] && TagFree(sep)
    requires Distinct(sel) && forall i :: 0 <= i < |sel| ==> sel[i] < 99
    requires forall i :: !At(content, START_TAG, i)
    ensures ExplicitSourceIds(json, Print(content, sep, sel)) == Ok(Aliases(sel))
  {
    AliasesAreDistinct(sel);
    PrintedIsTagFree(sep, sel);
    NoCopyAcross(OPEN, content, CLOSE, START_TAG);
    ParsePrinted(json, OPEN + content + CLOSE, JoinOn(sep, Aliases(sel)), Aliases(sel));
  }

  lemma ResolvePrinted(ids: seq<Id>, sel: seq<nat>)
    requires FromSourceIds(ids).Ok? && Distinct(sel) && forall i :: 0 <= i < |sel| ==> sel[i] < |ids|
    ensures var chosen := seq(|sel|, i requires 0 <= i < |sel| => ids[sel[i]]);
      Resolve(FromSourceIds(ids).value, Aliases(sel)) == Ok(chosen) && "" !in chosen
  {
    AliasesAreDistinct(sel);
    forall i | 0 <= i < |sel| ensures Lookup(Bindings(ids), Aliases(sel)[i]) == Some(ids[sel[i]]) {
      LookupFinds(ids, sel[i]);
    }
    var table := FromSourceIds(ids).value;
    assert Resolve(table, Aliases(sel)).Ok?;
    assert Resolve(table, Aliases(sel)).value == seq(|sel|, i requires 0 <= i < |sel| => ids[sel[i]]);
  }

  /** A printed reply up to the last tag. */
  function Head(content: string): string {
    OPEN + content + CLOSE + START_TAG
  }

  lemma PrintIsHead(content: string, sep: string, sel: seq<nat>)
    requires forall i :: 0 <= i < |sel| ==> sel[i] < 99
    ensures Print(content, sep, sel) == Head(content) + (JoinOn(sep, Aliases(sel)) + END_TAG)
  {
  }

  lemma PrintNothingIsHead(content: string, sep: string)
    ensures Print(content, sep, []) == Head(content) + END_TAG
  {
    assert JoinOn(sep, Aliases([])) + END_TAG == END_TAG;
  }

  lemma TagInHead(content: string, i: nat)
    requires At(content, START_TAG, i)
    ensures At(Head(content), START_TAG, |OPEN| + i) && |OPEN| + i + |START_TAG| < |Head(content)|
  {
    var k := |OPEN| + i;
    assert Head(content)[k..k + |START_TAG|] == content[i..i + |START_TAG|];
  }

  lemma ReadTag(json: Decoder, output: string, start: nat, end: nat)
    requires Find(output, START_TAG, 0) == Some(start) && start + |START_TAG| <= |output|
    requires Find(output, END_TAG, start + |START_TAG|) == Some(end) && end <= |output|
    ensures ExplicitSourceIds(json, output) == ParseValue(json, Strip(output[start + |START_TAG|..end]))
  {
    hide Find, ParseValue, Strip;
  }

  /** A tag in the content that is also closed there is read whatever the selection is. */
  lemma ClosedTagIgnoresRest(json: Decoder, content: string, i: nat, j: nat, a: string, b: string)
    requires At(content, START_TAG, i)
    requires Find(Head(content), START_TAG, 0).Some?
    requires Find(Head(content), START_TAG, 0).value + |START_TAG| <= j && At(Head(content), END_TAG, j)
    ensures ExplicitSourceIds(json, Head(content) + a) == ExplicitSourceIds(json, Head(content) + b)
  {
    hide Head, Find, At, ExplicitSourceIds, ParseValue, Strip;
    var head := Head(content);
    TagInHead(content, i);
    FindInPrefix(head, a, START_TAG, 0, |OPEN| + i);
    FindInPrefix(head, b, START_TAG, 0, |OPEN| + i);
    var start := Find(head, START_TAG, 0).value;
    var from := start + |START_TAG|;
    FindInPrefix(head, a, END_TAG, from, j);
    FindInPrefix(head, b, END_TAG, from, j);
    var end := Find(head, END_TAG, from).value;
    FoundInside(head, END_TAG, from);
    assert (head + a)[from..end] == head[from..end] == (head + b)[from..end];
    ReadTag(json, head + a, start, end);
    ReadTag(json, head + b, start, end);
  }

  lemma FoundInside(s: string, pattern: string, from: nat)
    requires Find(s, pattern, from).Some?
    ensures from <= Find(s, pattern, from).value && Find(s, pattern, from).value + |pattern| <= |s|
  {
    assert At(s, pattern, Find(s, pattern, from).value);
  }

  lemma HeadEndsInTag(content: string)
    ensures Head(content) != "" && Head(content)[|Head(content)| - 1] == '>'
  {
  }

  lemma TextIsNeverSourceFree(json: Decoder, value: string)
    requires NoListEndsInTag(json) && value != "" && value[|value| - 1] == '>'
    ensures ParseValue(json, value) != Ok([])
  {
    assert |StripAll(SplitOn(',', value))| == |SplitOn(',', value)|;
  }

  /** A tag in the content that is not closed there swallows the real one: the reply never reads as source-free. */
  lemma OpenTagSwallows(json: Decoder, content: string, i: nat)
    requires NoListEndsInTag(json) && At(content, START_TAG, i)
    requires Find(Head(content), START_TAG, 0).Some?
    requires forall j :: Find(Head(content), START_TAG, 0).value + |START_TAG| <= j ==> !At(Head(content), END_TAG, j)
    ensures ExplicitSourceIds(json, Head(content) + END_TAG) != Ok([])
  {
    hide Head, Find, At, ExplicitSourceIds, ParseValue, Strip, IsSpace;
    var head := Head(content);
    TagInHead(content, i);
    HeadEndsInTag(content);
    FindInPrefix(head, END_TAG, START_TAG, 0, |OPEN| + i);
    FoundInside(head, START_TAG, 0);
    var start := Find(head, START_TAG, 0).value;
    assert head + END_TAG + "" == head + END_TAG;
    FindAfterPrefix(head, END_TAG, "", start + |START_TAG|);
    ReadTag(json, head + END_TAG, start, |head|);
    TaggedTextIsNeverSourceFree(json, (head + END_TAG)[start + |START_TAG|..|head|]);
  }

  lemma TaggedTextIsNeverSourceFree(json: Decoder, value: string)
    requires NoListEndsInTag(json) && value != "" && value[|value| - 1] == '>'
    ensures ParseValue(json, Strip(value)) != Ok([])
  {
    hide ParseValue, Strip, IsSpace;
    NotSpace();
    StripKeepsEnd(value);
    TextIsNeverSourceFree(json, Strip(value));
  }

  lemma NotSpace()
    ensures !IsSpace('>')
  {
  }

  /** What the source tag must read as if the round trip holds. */
  lemma RoundTripReads(json: Decoder, ids: seq<Id>, sel: seq<nat>, content: string, sep: string, fallback: string)
    requires FromSourceIds(ids).Ok? && forall i :: 0 <= i < |sel| ==> sel[i] < |ids|
    requires RoundTrips(json, ids, sel, content, sep, fallback)
    ensures var r := ExplicitSourceIds(json, Print(content, sep, sel)); r.Ok? && |r.value| == |sel|
  {
    hide ExplicitSourceIds, WholeCheatsheet, Print;
  }

  /** A duplicate-free selection among n sources. */
  predicate Selection(sel: seq<nat>, n: nat) {
    Distinct(sel) && forall i :: 0 <= i < |sel| ==> sel[i] < n
  }

  /** Every selection survives the round trip exactly when the cheatsheet text contains no opening source tag. */
  lemma {:induction false} RoundTripIff(json: Decoder, ids: seq<Id>, content: string, sep: string, fallback: string)
    requires RejectsAliases(json) && NoListEndsInTag(json) && FromSourceIds(ids).Ok? && ids != []
    requires Separator(sep) && ',' !in sep[1..] && TagFree(sep) && !Blank(content)
    ensures (forall i :: !At(content, START_TAG, i)) <==>
      forall sel :: Selection(sel, |ids|) ==> RoundTrips(json, ids, sel, content, sep, fallback)
  {
    hide RoundTrips, ExplicitSourceIds, Head, Print, Alias, At, Separator, Blank, FromSourceIds, TagFree;
    if forall i :: !At(content, START_TAG, i) {
      forall sel | Selection(sel, |ids|) ensures RoundTrips(json, ids, sel, content, sep, fallback) {
        CurateRoundTrip(json, ids, sel, content, sep, fallback);
      }
    } else {
      var i: nat :| At(content, START_TAG, i);
      SomeSelectionFails(json, ids, content, sep, fallback, i);
      assert Selection([], |ids|) && Selection([0], |ids|);
    }
  }

  /** With a tag in the content, reading no source and reading one source cannot both happen. */
  lemma NotBothRead(json: Decoder, content: string, text: string, i: nat)
    requires NoListEndsInTag(json) && At(content, START_TAG, i)
    ensures ExplicitSourceIds(json, Head(content) + END_TAG) == Ok([]) ==>
      ExplicitSourceIds(json, Head(content) + (text + END_TAG)) == Ok([])
  {
    hide ExplicitSourceIds, Head, At, Find;
    TagInHead(content, i);
    FindInPrefix(Head(content), "", START_TAG, 0, |OPEN| + i);
    var from := Find(Head(content), START_TAG, 0).value + |START_TAG|;
    if j: nat :| from <= j && At(Head(content), END_TAG, j) {
      ClosedTagIgnoresRest(json, content, i, j, END_TAG, text + END_TAG);
    } else {
      OpenTagSwallows(json, content, i);
    }
  }

  lemma EmptySelectionReads(json: Decoder, ids: seq<Id>, content: string, sep: string, fallback: string)
    requires FromSourceIds(ids).Ok? && RoundTrips(json, ids, [], content, sep, fallback)
    ensures ExplicitSourceIds(json, Head(content) + END_TAG) == Ok([])
  {
    hide RoundTrips, ExplicitSourceIds, Head, Print, FromSourceIds;
    RoundTripReads(json, ids, [], content, sep, fallback);
    PrintNothingIsHead(content, sep);
  }

  lemma OneSourceReads(json: Decoder, ids: seq<Id>, content: string, sep: string, fallback: string)
    requires FromSourceIds(ids).Ok? && ids != [] && RoundTrips(json, ids, [0], content, sep, fallback)
    ensures ExplicitSourceIds(json, Head(content) + (JoinOn(sep, Aliases([0])) + END_TAG)) != Ok([])
  {
    hide RoundTrips, ExplicitSourceIds, Head, Print, FromSourceIds, JoinOn, Aliases;
    RoundTripReads(json, ids, [0], content, sep, fallback);
    PrintIsHead(content, sep, [0]);
  }

  lemma {:induction false} SomeSelectionFails(
    json: Decoder, ids: seq<Id>, content: string, sep: string, fallback: string, i: nat)
    requires NoListEndsInTag(json) && FromSourceIds(ids).Ok? && ids != [] && At(content, START_TAG, i)
    ensures !RoundTrips(json, ids, [], content, sep, fallback) || !RoundTrips(json, ids, [0], content, sep, fallback)
  {
    hide RoundTrips, ExplicitSourceIds, Head, JoinOn, Aliases, At, FromSourceIds, NoListEndsInTag;
    NotBothRead(json, content, JoinOn(sep, Aliases([0])), i);
    if RoundTrips(json, ids, [], content, sep, fallback) {
      EmptySelectionReads(json, ids, content, sep, fallback);
      if RoundTrips(json, ids, [0], content, sep, fallback) {
        OneSourceReads(json, ids, content, sep, fallback);
      }
    }
  }

  // ---- replies without sources ---------------------------------------------------------------------

  lemma NoSourcesInUntagged(json: Decoder, content: string)
    requires forall i :: !At(content, START_TAG, i)
    ensures ExplicitSourceIds(json, OPEN + content + CLOSE) == Ok([])
  {
    NoCopyAcross(OPEN, content, CLOSE, START_TAG);
    assert Find(OPEN + content + CLOSE, START_TAG, 0).None?;
  }

  /** A reply that names no source is accepted without parents. */
  lemma CurateUntagged(json: Decoder, content: string, fallback: string, retrieved: seq<Id>, table: AliasTable)
    requires !Blank(content) && forall i :: !At(content, START_TAG, i)
    ensures Curate(json, OPEN + content + CLOSE, fallback, retrieved, [], table) ==
      Ok(Candidate(OPEN + content + CLOSE, Accepted, [], retrieved, Unavailable))
  {
    hide WholeCheatsheet, ExplicitSourceIds, Strip;
    WholeOfUntagged(content);
    NoSourcesInUntagged(json, content);
    StripNonBlank(content);
    assert Resolve(table, []).Ok? && Resolve(table, []).value == [];
  }

  /** The first tag wins: a cheatsheet whose text contains an empty tag hides the sources named after it. */
  lemma {:induction false} TagInContentHidesSources(json: Decoder, ids: seq<Id>, sel: seq<nat>, fallback: string)
    requires FromSourceIds(ids).Ok? && forall i :: 0 <= i < |sel| ==> sel[i] < |ids|
    ensures var output := Print("x" + START_TAG + END_TAG, ",", sel);
      ExplicitSourceIds(json, output) == Ok([])
  {
    var pre := OPEN + "x";
    var rest := CLOSE + START_TAG + JoinOn(",", Aliases(sel)) + END_TAG;
    var output := Print("x" + START_TAG + END_TAG, ",", sel);
    assert output == pre + START_TAG + "" + END_TAG + rest;
    forall i: nat ensures !At(pre, START_TAG, i) {
      if i + |START_TAG| <= |pre| {
        assert pre[i..i + |START_TAG|][1] == pre[i + 1];
      }
    }
    ParseTag(json, pre, "", rest);
    assert Strip("") == "";
  }
}
