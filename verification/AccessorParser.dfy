/**
 Names of contract variables followed by `.field` and `[key]` accessors: the parser that lists the
 accessors in reverse, and the printer it inverts.
 */
module AccessorParser {
  import opened Wrappers
  import opened Sequences

  datatype Accessor = Field(text: string) | Key(text: string)

  datatype NameError = BracketsOrPointsInside | InvalidName

  function IndexOf(s: string, c: char): (i: int)
    ensures -1 <= i < |s|
    ensures i == -1 ==> c !in s
    ensures i >= 0 ==> s[i] == c && c !in s[..i]
  {
    if s == [] then -1
    else if s[0] == c then 0
    else
      var i := IndexOf(s[1..], c);
      if i == -1 then -1 else
        assert s[..i + 1] == [s[0]] + s[1..][..i];
        i + 1
  }

  /** Where the first accessor starts, or -1. */
  function FirstSeparator(s: string): (i: int)
    ensures -1 <= i < |s|
    ensures i == -1 ==> '.' !in s && '[' !in s
    ensures i >= 0 ==> (s[i] == '.' || s[i] == '[') && '.' !in s[..i] && '[' !in s[..i]
  {
    var point, bracket := IndexOf(s, '.'), IndexOf(s, '[');
    if point == -1 then bracket
    else if bracket == -1 then point
    else
      assert forall k :: 0 <= k < point < bracket ==> s[..point][k] == s[..bracket][k];
      assert forall k :: 0 <= k < bracket < point ==> s[..bracket][k] == s[..point][k];
      if point < bracket then point else bracket
  }

  /**
   What the scanning loop returns from a state: the texts so far, the text being read, and whether a
   bracket is open.
   */
  function Scan(t: string, texts: seq<string>, text: string, bracket: bool): Result<seq<string>, NameError> {
    if t == [] then
      if bracket then Err(InvalidName) else Ok(texts + [text])
    else if t[0] == '.' then
      if bracket then Err(BracketsOrPointsInside) else Scan(t[1..], texts + [text], "", false)
    else if t[0] == '[' then
      if bracket then Err(BracketsOrPointsInside) else Scan(t[1..], texts + [text], "", true)
    else if t[0] == ']' then
      if !bracket then Err(BracketsOrPointsInside) else Scan(t[1..], texts, text, false)
    else Scan(t[1..], texts, text + [t[0]], bracket)
  }

  function Parsed(name: string): Result<seq<string>, NameError> {
    var first := FirstSeparator(name);
    if first == -1 then Ok([]) else
      var texts :- Scan(name[first + 1..], [], "", name[first] == '[');
      Ok(Reverse(texts))
  }

  method ParseName(fullName: string) returns (r: Result<seq<string>, NameError>)
    ensures r == Parsed(fullName)
  {
    var first := FirstSeparator(fullName);
    if first == -1 {
      return Ok([]);
    }
    var result: seq<string>, str, bracket := [], "", false;
    ghost var expected := Scan(fullName[first + 1..], [], "", fullName[first] == '[');
    for i := first to |fullName|
      invariant i == first ==> result == [] && str == "" && !bracket
      invariant i > first ==> Scan(fullName[i..], result, str, bracket) == expected
    {
      assert fullName[i..][1..] == fullName[i + 1..];
      if fullName[i] == '.' {
        if bracket {
          return Err(BracketsOrPointsInside);
        }
        if i != first { result := result + [str]; }
        str := "";
      } else if fullName[i] == '[' {
        if bracket {
          return Err(BracketsOrPointsInside);
        }
        bracket := true;
        if i != first { result := result + [str]; }
        str := "";
      } else if fullName[i] == ']' {
        if !bracket {
          return Err(BracketsOrPointsInside);
        }
        bracket := false;
      } else {
        str := str + [fullName[i]];
      }
    }
    if bracket {
      return Err(InvalidName);
    }
    result := result + [str];
    return Ok(Reverse(result));
  }

  /** Cuts at the first bracket and then at the first point. */
  function VariableName(fullName: string): string {
    var cut := if IndexOf(fullName, '[') != -1 then fullName[..IndexOf(fullName, '[')] else fullName;
    if IndexOf(cut, '.') != -1 then cut[..IndexOf(cut, '.')] else cut
  }

  // ----- printing

  function PrintAccessor(a: Accessor): string {
    match a
    case Field(text) => "." + text
    case Key(text) => "[" + text + "]"
  }

  function PrintAll(accessors: seq<Accessor>): string {
    if accessors == [] then "" else PrintAccessor(accessors[0]) + PrintAll(accessors[1..])
  }

  function Texts(accessors: seq<Accessor>): (r: seq<string>)
    ensures |r| == |accessors|
  {
    if accessors == [] then [] else [accessors[0].text] + Texts(accessors[1..])
  }

  predicate Plain(text: string) {
    '.' !in text && '[' !in text && ']' !in text
  }

  predicate PlainTexts(accessors: seq<Accessor>) {
    forall i :: 0 <= i < |accessors| ==> Plain(accessors[i].text)
  }

  lemma {:induction false} ScanPlain(text: string, rest: string, texts: seq<string>, str: string, bracket: bool)
    requires Plain(text)
    ensures Scan(text + rest, texts, str, bracket) == Scan(rest, texts, str + text, bracket)
    decreases |text|
  {
    if text == [] {
      assert text + rest == rest && str + text == str;
    } else {
      assert (text + rest)[1..] == text[1..] + rest;
      ScanPlain(text[1..], rest, texts, str + [text[0]], bracket);
      assert str + [text[0]] + text[1..] == str + text;
    }
  }

  /** After its opening character, one accessor is read into the current text. */
  lemma {:induction false} ScanOne(a: Accessor, rest: string, texts: seq<string>, str: string)
    requires Plain(a.text)
    ensures Scan(PrintAccessor(a)[1..] + rest, texts, str, a.Key?) == Scan(rest, texts, str + a.text, false)
  {
    match a
    case Field(text) =>
      assert PrintAccessor(a)[1..] == text;
      ScanPlain(text, rest, texts, str, false);
    case Key(text) =>
      assert PrintAccessor(a)[1..] + rest == text + ("]" + rest);
      ScanPlain(text, "]" + rest, texts, str, true);
      assert ("]" + rest)[1..] == rest;
  }

  lemma {:induction false} ScanOpening(t: string, u: string, texts: seq<string>, str: string)
    requires t != [] && (t[0] == '.' || t[0] == '[') && t[1..] == u
    ensures Scan(t, texts, str, false) == Scan(u, texts + [str], "", t[0] == '[')
  {
  }

  lemma {:induction false} PrintedStart(a: Accessor, rest: string)
    ensures var t := PrintAccessor(a) + rest;
      t[0] == (if a.Key? then '[' else '.') && t[1..] == PrintAccessor(a)[1..] + rest
  {
  }

  /** A whole printed accessor closes the current text and becomes the next one. */
  lemma {:induction false} ScanAccessor(a: Accessor, rest: string, texts: seq<string>, str: string)
    requires Plain(a.text)
    ensures Scan(PrintAccessor(a) + rest, texts, str, false) == Scan(rest, texts + [str], a.text, false)
  {
    var t, u := PrintAccessor(a) + rest, PrintAccessor(a)[1..] + rest;
    PrintedStart(a, rest);
    ScanOpening(t, u, texts, str);
    ScanOne(a, rest, texts + [str], "");
    assert "" + a.text == a.text;
  }

  lemma {:induction false} ScanPrinted(accessors: seq<Accessor>, texts: seq<string>, str: string)
    requires PlainTexts(accessors)
    ensures Scan(PrintAll(accessors), texts, str, false) == Ok(texts + [str] + Texts(accessors))
    decreases |accessors|
  {
    if accessors == [] {
      assert texts + [str] + [] == texts + [str];
    } else {
      var a, rest := accessors[0], accessors[1..];
      ScanAccessor(a, PrintAll(rest), texts, str);
      ScanPrinted(rest, texts + [str], a.text);
      assert texts + [str] + [a.text] + Texts(rest) == texts + [str] + Texts(accessors);
    }
  }

  lemma {:induction false} FirstSeparatorAt(s: string, i: nat)
    requires i < |s| && (s[i] == '.' || s[i] == '[') && '.' !in s[..i] && '[' !in s[..i]
    ensures FirstSeparator(s) == i
  {
  }

  lemma {:induction false} ScanFirst(a: Accessor, rest: string)
    requires Plain(a.text)
    ensures var t := PrintAccessor(a) + rest;
      t != [] && (t[0] == '.' || t[0] == '[') && Scan(t[1..], [], "", t[0] == '[') == Scan(rest, [], a.text, false)
  {
    PrintedStart(a, rest);
    ScanOne(a, rest, [], "");
    assert "" + a.text == a.text;
  }

  lemma {:induction false} ScanAllPrinted(accessors: seq<Accessor>)
    requires PlainTexts(accessors) && accessors != []
    ensures var t := PrintAll(accessors);
      t != [] && (t[0] == '.' || t[0] == '[') && Scan(t[1..], [], "", t[0] == '[') == Ok(Texts(accessors))
  {
    var a := accessors[0];
    ScanFirst(a, PrintAll(accessors[1..]));
    ScanPrinted(accessors[1..], [], a.text);
    assert [] + [a.text] + Texts(accessors[1..]) == Texts(accessors);
  }

  lemma {:induction false} SeparatorAfterBase(base: string, t: string)
    requires '.' !in base && '[' !in base && t != [] && (t[0] == '.' || t[0] == '[')
    ensures FirstSeparator(base + t) == |base| && (base + t)[|base|] == t[0] && (base + t)[|base| + 1..] == t[1..]
  {
    assert (base + t)[..|base|] == base;
    FirstSeparatorAt(base + t, |base|);
  }

  lemma {:induction false} ParsedAfterBase(base: string, t: string, texts: seq<string>)
    requires '.' !in base && '[' !in base && t != [] && (t[0] == '.' || t[0] == '[')
    requires Scan(t[1..], [], "", t[0] == '[') == Ok(texts)
    ensures Parsed(base + t) == Ok(Reverse(texts)) && VariableName(base + t) == base
  {
    SeparatorAfterBase(base, t);
    VariableNameEndsAtSeparator(base + t);
    assert (base + t)[..|base|] == base;
  }

  lemma {:induction false} ParsedBase(base: string)
    requires '.' !in base && '[' !in base
    ensures Parsed(base) == Ok([]) && VariableName(base) == base
  {
    VariableNameEndsAtSeparator(base);
  }

  /** Parsing a printed name gives back its accessors, last one first, and its base. */
  lemma {:induction false} ParsePrint(base: string, accessors: seq<Accessor>)
    requires '.' !in base && '[' !in base && PlainTexts(accessors)
    ensures Parsed(base + PrintAll(accessors)) == Ok(Reverse(Texts(accessors)))
    ensures VariableName(base + PrintAll(accessors)) == base
  {
    if accessors == [] {
      ParsedBase(base);
      assert base + PrintAll(accessors) == base;
    } else {
      ScanAllPrinted(accessors);
      ParsedAfterBase(base, PrintAll(accessors), Texts(accessors));
    }
  }

  lemma VariableNameEndsAtSeparator(name: string)
    ensures VariableName(name) == if FirstSeparator(name) == -1 then name else name[..FirstSeparator(name)]
  {
    var b, q := IndexOf(name, '['), IndexOf(name, '.');
    var cut := if b != -1 then name[..b] else name;
    var p := IndexOf(cut, '.');
    if q != -1 && q < |cut| {
      assert cut[q] == '.' && forall k :: 0 <= k < q ==> name[..q][k] == cut[k];
      assert p == q;
    } else {
      assert forall k :: 0 <= k < |cut| && q != -1 ==> name[..q][k] == cut[k];
      assert p == -1;
    }
  }

  // ----- which names are accepted

  function Nesting(c: char): int {
    if c == '[' then 1 else if c == ']' then -1 else 0
  }

  /** Open minus closed brackets after k characters, when `start` are open before. */
  function DepthAt(t: string, start: int, k: nat): int
    requires k <= |t|
    decreases k
  {
    if k == 0 then start else DepthAt(t, start, k - 1) + Nesting(t[k - 1])
  }

  /** Brackets open and close in turn and no point stands inside them. */
  predicate Nested(t: string, start: int) {
    && (forall k :: 0 <= k <= |t| ==> 0 <= DepthAt(t, start, k) <= 1)
    && (forall k :: 0 <= k < |t| && t[k] == '.' ==> DepthAt(t, start, k) == 0)
  }

  /** In addition, no bracket is left open. */
  predicate Balanced(t: string, start: int) {
    Nested(t, start) && DepthAt(t, start, |t|) == 0
  }

  lemma {:induction false} DepthTail(t: string, start: int, k: nat)
    requires k < |t|
    ensures DepthAt(t, start, k + 1) == DepthAt(t[1..], start + Nesting(t[0]), k)
  {
    if k > 0 {
      DepthTail(t, start, k - 1);
    } else {
      assert DepthAt(t, start, 0) == start;
    }
  }

  lemma NestedTail(t: string, start: int)
    requires t != [] && 0 <= start <= 1
    ensures Nested(t, start) <==> (t[0] == '.' ==> start == 0) && Nested(t[1..], start + Nesting(t[0]))
    ensures DepthAt(t, start, |t|) == DepthAt(t[1..], start + Nesting(t[0]), |t| - 1)
  {
    var u, next := t[1..], start + Nesting(t[0]);
    assert DepthAt(t, start, 0) == start;
    forall k | 0 <= k <= |u|
      ensures DepthAt(t, start, k + 1) == DepthAt(u, next, k)
    {
      DepthTail(t, start, k);
    }
    if Nested(t, start) {
      forall k | 0 <= k < |u| && u[k] == '.'
        ensures DepthAt(u, next, k) == 0
      {
        assert t[k + 1] == '.';
      }
    }
    if Nested(u, next) && (t[0] == '.' ==> start == 0) {
      forall k | 0 <= k <= |t|
        ensures 0 <= DepthAt(t, start, k) <= 1
        ensures k < |t| && t[k] == '.' ==> DepthAt(t, start, k) == 0
      {
        if k > 0 {
          assert DepthAt(t, start, k - 1 + 1) == DepthAt(u, next, k - 1);
          assert k < |t| ==> t[k] == u[k - 1];
        }
      }
    }
  }

  lemma NotNested(t: string, start: int)
    requires start < 0 || start > 1
    ensures !Nested(t, start)
  {
    assert DepthAt(t, start, 0) == start;
  }

  /** The brackets nest but one is left open. */
  predicate LeftOpen(t: string, start: int) {
    Nested(t, start) && DepthAt(t, start, |t|) == 1
  }

  lemma {:induction false} ScanAccepts(t: string, texts: seq<string>, text: string, bracket: bool)
    ensures Scan(t, texts, text, bracket).Ok? <==> Balanced(t, if bracket then 1 else 0)
    ensures Scan(t, texts, text, bracket) == Err(InvalidName) <==> LeftOpen(t, if bracket then 1 else 0)
    decreases |t|
  {
    var start := if bracket then 1 else 0;
    if t == [] {
    } else {
      NestedTail(t, start);
      if t[0] == '.' {
        ScanAccepts(t[1..], texts + [text], "", false);
      } else if t[0] == '[' {
        if bracket { NotNested(t[1..], 2); } else { ScanAccepts(t[1..], texts + [text], "", true); }
      } else if t[0] == ']' {
        if bracket { ScanAccepts(t[1..], texts, text, false); } else { NotNested(t[1..], -1); }
      } else {
        ScanAccepts(t[1..], texts, text + [t[0]], bracket);
      }
    }
  }

  /**
   A name is accepted exactly when it has no accessors or its brackets are balanced from the first one on. It is
   reported as invalid exactly when only a closing bracket is missing; all other refusals name what stands inside.
   */
  lemma ParseAccepts(name: string)
    ensures Parsed(name).Ok? <==> FirstSeparator(name) == -1 || Balanced(name[FirstSeparator(name)..], 0)
    ensures Parsed(name) == Err(InvalidName) <==> FirstSeparator(name) != -1 && LeftOpen(name[FirstSeparator(name)..], 0)
  {
    var first := FirstSeparator(name);
    if first != -1 {
      var t := name[first..];
      ScanAccepts(t[1..], [], "", t[0] == '[');
      NestedTail(t, 0);
      assert t[1..] == name[first + 1..];
    }
  }

  // ----- what an accepted name means

  function WithoutClosing(t: string): string {
    if t == [] then [] else (if t[0] == ']' then [] else [t[0]]) + WithoutClosing(t[1..])
  }

  /** Cut at every point and opening bracket; closing brackets are dropped. */
  function Cut(t: string): (r: seq<string>)
    ensures r != []
    decreases |t|
  {
    var e := FirstSeparator(t);
    if e == -1 then [WithoutClosing(t)] else [WithoutClosing(t[..e])] + Cut(t[e + 1..])
  }

  lemma {:induction false} FirstSeparatorNext(t: string)
    requires t != [] && t[0] != '.' && t[0] != '['
    ensures var e := FirstSeparator(t[1..]); FirstSeparator(t) == if e == -1 then -1 else e + 1
  {
    var e := FirstSeparator(t[1..]);
    if e == -1 {
      assert t == [t[0]] + t[1..];
    } else {
      assert t[..e + 1] == [t[0]] + t[1..][..e];
      FirstSeparatorAt(t, e + 1);
    }
  }

  lemma {:induction false} CutSeparator(t: string)
    requires t != [] && (t[0] == '.' || t[0] == '[')
    ensures Cut(t) == [""] + Cut(t[1..])
  {
    assert t[..0] == [];
    FirstSeparatorAt(t, 0);
  }

  lemma {:induction false} CutNext(t: string)
    requires t != [] && t[0] != '.' && t[0] != '['
    ensures Cut(t) == [(if t[0] == ']' then "" else [t[0]]) + Cut(t[1..])[0]] + Cut(t[1..])[1..]
  {
    var u := t[1..];
    var e := FirstSeparator(u);
    FirstSeparatorNext(t);
    if e != -1 {
      assert t[..e + 1][0] == t[0] && t[..e + 1][1..] == u[..e];
      assert t[e + 2..] == u[e + 1..];
    }
  }

  ghost predicate Pieces(texts: seq<string>, text: string, pieces: seq<string>, r: seq<string>)
    requires pieces != []
  {
    r == texts + [text + pieces[0]] + pieces[1..]
  }

  lemma PiecesSeparated(texts: seq<string>, text: string, pieces: seq<string>, r: seq<string>)
    requires pieces != [] && Pieces(texts + [text], "", pieces, r)
    ensures Pieces(texts, text, [""] + pieces, r)
  {
    assert "" + pieces[0] == pieces[0] && text + "" == text;
    assert pieces == [pieces[0]] + pieces[1..] && ([""] + pieces)[1..] == pieces;
  }

  lemma PiecesNext(texts: seq<string>, text: string, more: string, pieces: seq<string>, pieces': seq<string>,
                   r: seq<string>)
    requires pieces != [] && Pieces(texts, text + more, pieces, r) && pieces' == [more + pieces[0]] + pieces[1..]
    ensures Pieces(texts, text, pieces', r)
  {
    assert text + more + pieces[0] == text + (more + pieces[0]);
  }

  lemma {:induction false} ScanOrdinary(t: string, texts: seq<string>, text: string, bracket: bool)
    requires t != [] && t[0] != '.' && t[0] != '[' && Scan(t, texts, text, bracket).Ok?
    ensures Scan(t, texts, text, bracket)
      == Scan(t[1..], texts, text + (if t[0] == ']' then "" else [t[0]]), if t[0] == ']' then false else bracket)
  {
    assert text + "" == text;
  }

  lemma CutEmpty(texts: seq<string>, text: string)
    ensures Pieces(texts, text, Cut(""), texts + [text])
  {
    assert Cut("") == [""] && text + "" == text;
  }

  /** The texts of an accepted scan are the pieces of what it reads. */
  lemma {:induction false} ScanCuts(t: string, texts: seq<string>, text: string, bracket: bool, r: seq<string>)
    requires Scan(t, texts, text, bracket) == Ok(r)
    ensures Pieces(texts, text, Cut(t), r)
    decreases |t|
  {
    if t == [] {
      CutEmpty(texts, text);
    } else if t[0] == '.' || t[0] == '[' {
      ScanCuts(t[1..], texts + [text], "", t[0] == '[', r);
      PiecesSeparated(texts, text, Cut(t[1..]), r);
      CutSeparator(t);
    } else {
      var more := if t[0] == ']' then "" else [t[0]];
      ScanOrdinary(t, texts, text, bracket);
      ScanCuts(t[1..], texts, text + more, if t[0] == ']' then false else bracket, r);
      CutNext(t);
      PiecesNext(texts, text, more, Cut(t[1..]), Cut(t), r);
    }
  }

  lemma OnlyPieces(pieces: seq<string>, r: seq<string>)
    requires pieces != [] && Pieces([], "", pieces, r)
    ensures r == pieces
  {
    assert "" + pieces[0] == pieces[0];
    assert [] + [pieces[0]] + pieces[1..] == pieces;
  }

  /** The accessors of an accepted name are the pieces behind its first point or bracket, listed in reverse. */
  lemma ParsedTexts(name: string)
    requires Parsed(name).Ok?
    ensures Parsed(name).value
      == if '.' !in name && '[' !in name then [] else Reverse(Cut(name[FirstSeparator(name) + 1..]))
  {
    var first := FirstSeparator(name);
    if first != -1 {
      var t := name[first + 1..];
      var texts := Scan(t, [], "", name[first] == '[').value;
      ScanCuts(t, [], "", name[first] == '[', texts);
      OnlyPieces(Cut(t), texts);
    }
  }
}
