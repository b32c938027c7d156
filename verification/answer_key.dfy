/**
 * The answer key: the raw per-subject letter strings, the parser that turns
 * one letter string into a single choice index or a list of indices, and the
 * per-subject key built from the raw table.
 */
module AnswerKey {
  import opened Outcomes

  /** An expected answer: one choice index, or a list of accepted indices. */
  datatype Answer = Single(index: int) | Multi(indices: seq<int>)

  /** The token that the letter mapping has no entry for. */
  datatype ParseError = UnknownLetter(token: string)

  /** Choice letters in index order: a is choice 0, ..., d is choice 3. */
  const Letters: string := "abcd"

  /** The letter-to-index mapping; `None` where the mapping has no key. */
  function LetterIndex(token: string): (r: Option<nat>)
    ensures r.Some? <==> exists k :: 0 <= k < |Letters| && token == [Letters[k]]
    ensures r.Some? ==> r.value < |Letters| && token == [Letters[r.value]]
  {
    if token == "a" then assert token == [Letters[0]]; Some(0)
    else if token == "b" then assert token == [Letters[1]]; Some(1)
    else if token == "c" then assert token == [Letters[2]]; Some(2)
    else if token == "d" then assert token == [Letters[3]]; Some(3)
    else None
  }

  /**
   * Removes every ASCII space: exactly the spaces go, and every other
   * character survives, in order (see StripSpacesAppend and StripSpacesChar).
   */
  function StripSpaces(s: string): (r: string)
    ensures ' ' !in r
    ensures |r| + Occurrences(s, ' ') == |s|
    ensures forall ch :: ch != ' ' ==> (ch in r <==> ch in s)
  {
    if |s| == 0 then ""
    else if s[0] == ' ' then StripSpaces(s[1..])
    else [s[0]] + StripSpaces(s[1..])
  }

  function LowerChar(ch: char): char {
    if 'A' <= ch <= 'Z' then (ch as int + 32) as char else ch
  }

  /** Lower-cases the ASCII letters and leaves every other character alone. */
  function Lower(s: string): (r: string)
    ensures |r| == |s|
    ensures forall i :: 0 <= i < |s| ==> r[i] == LowerChar(s[i])
  {
    seq(|s|, i requires 0 <= i < |s| => LowerChar(s[i]))
  }

  /** The parser's normal form: spaces removed, then lower-cased. */
  function Normalize(s: string): string {
    Lower(StripSpaces(s))
  }

  /** Number of occurrences of `sep` in `s`. */
  function Occurrences(s: string, sep: char): nat {
    if |s| == 0 then 0
    else (if s[0] == sep then 1 else 0) + Occurrences(s[1..], sep)
  }

  /** Joins tokens with `sep` between neighbours. */
  function Join(tokens: seq<string>, sep: char): string
    requires |tokens| > 0
  {
    if |tokens| == 1 then tokens[0] else tokens[0] + [sep] + Join(tokens[1..], sep)
  }

  /**
   * String splitting on a separator character: the pieces between
   * consecutive separators, empty pieces included, so a string with k
   * separators always gives k + 1 pieces.
   */
  function Split(s: string, sep: char): (tokens: seq<string>)
    ensures |tokens| == Occurrences(s, sep) + 1
    ensures forall k :: 0 <= k < |tokens| ==> sep !in tokens[k]
    ensures Join(tokens, sep) == s
  {
    if |s| == 0 then [""]
    else
      var rest := Split(s[1..], sep);
      if s[0] == sep then
        assert s == [sep] + s[1..];
        [""] + rest
      else
        var first := [s[0]] + rest[0];
        var tokens := [first] + rest[1..];
        assert tokens[1..] == rest[1..];
        assert s == [s[0]] + s[1..];
        tokens
  }

  /** Maps every token through the letter mapping; the first unknown token fails. */
  function LetterIndices(tokens: seq<string>): (r: Result<seq<int>, ParseError>)
    ensures r.Success? <==> forall k :: 0 <= k < |tokens| ==> LetterIndex(tokens[k]).Some?
    ensures r.Success? ==>
              && |r.value| == |tokens|
              && forall k :: 0 <= k < |tokens| ==>
                   LetterIndex(tokens[k]).Some? && LetterIndex(tokens[k]).value == r.value[k]
    ensures r.Failure? ==>
              exists k :: 0 <= k < |tokens| && LetterIndex(tokens[k]).None? && r.error == UnknownLetter(tokens[k])
  {
    if |tokens| == 0 then Success([])
    else
      match LetterIndex(tokens[0])
      case None => Failure(UnknownLetter(tokens[0]))
      case Some(i) =>
        match LetterIndices(tokens[1..])
        case Failure(e) => Failure(e)
        case Success(rest) =>
          assert forall k :: 1 <= k < |tokens| ==> tokens[k] == tokens[1..][k - 1];
          Success([i as int] + rest)
  }

  /**
   * Parses one answer-key entry. After normalisation, a string holding a
   * comma is a list of letters, one per comma-separated token; any other
   * string must be exactly one letter.
   */
  function ParseAnswer(s: string): (r: Result<Answer, ParseError>)
    ensures r.Success? ==> (r.value.Single? <==> ',' !in Normalize(s))
    ensures r.Success? && r.value.Single? ==>
              0 <= r.value.index < |Letters| && Normalize(s) == [Letters[r.value.index]]
    ensures r.Success? && r.value.Multi? ==>
              var tokens := Split(Normalize(s), ',');
              && |r.value.indices| == |tokens|
              && forall k :: 0 <= k < |tokens| ==>
                   0 <= r.value.indices[k] < |Letters| && tokens[k] == [Letters[r.value.indices[k]]]
    ensures r.Failure? ==>
              var t := Normalize(s);
              var tokens := if ',' in t then Split(t, ',') else [t];
              exists k :: 0 <= k < |tokens| && LetterIndex(tokens[k]).None? && r.error == UnknownLetter(tokens[k])
  {
    var t := Normalize(s);
    if ',' in t then
      match LetterIndices(Split(t, ','))
      case Failure(e) => Failure(e)
      case Success(xs) => Success(Multi(xs))
    else
      match LetterIndex(t)
      case None => Failure(UnknownLetter(t))
      case Some(i) => Success(Single(i))
  }

  /** Stripping distributes over concatenation, so it keeps the order of what it keeps. */
  lemma {:induction false} StripSpacesAppend(a: string, b: string)
    ensures StripSpaces(a + b) == StripSpaces(a) + StripSpaces(b)
    decreases |a|
  {
    if |a| > 0 {
      assert (a + b)[0] == a[0];
      assert (a + b)[1..] == a[1..] + b;
      StripSpacesAppend(a[1..], b);
    } else {
      assert a + b == b;
    }
  }

  /** A single character: a space is dropped, anything else is kept. */
  lemma StripSpacesChar(ch: char)
    ensures StripSpaces([ch]) == if ch == ' ' then "" else [ch]
  {
    assert [ch][1..] == "";
  }

  lemma LowerCharIdempotent(ch: char)
    ensures LowerChar(LowerChar(ch)) == LowerChar(ch)
  {
  }

  lemma {:induction false} StripSpacesIdentity(s: string)
    requires ' ' !in s
    ensures StripSpaces(s) == s
  {
    if |s| > 0 {
      assert s[0] != ' ';
      assert ' ' !in s[1..];
      StripSpacesIdentity(s[1..]);
      assert s == [s[0]] + s[1..];
    }
  }

  /** Normalising twice is normalising once. */
  lemma NormalizeIdempotent(s: string)
    ensures Normalize(Normalize(s)) == Normalize(s)
  {
    var t := Normalize(s);
    var u := StripSpaces(s);
    forall i | 0 <= i < |t|
      ensures t[i] != ' '
    {
      assert u[i] in u;
    }
    StripSpacesIdentity(t);
    forall i | 0 <= i < |t|
      ensures LowerChar(t[i]) == t[i]
    {
      LowerCharIdempotent(u[i]);
    }
  }

  /** The parser does not see spaces or letter case. */
  lemma ParseIgnoresSpacesAndCase(s: string)
    ensures ParseAnswer(s) == ParseAnswer(Normalize(s))
  {
    NormalizeIdempotent(s);
  }

  /** An entry parses to one index exactly when its normal form is that index's letter. */
  lemma ParseSingleIff(s: string, i: int)
    ensures ParseAnswer(s) == Success(Single(i)) <==>
            0 <= i < |Letters| && Normalize(s) == [Letters[i]]
  {
    var t := Normalize(s);
    if 0 <= i < |Letters| && t == [Letters[i]] {
      assert t[0] != ',';
      assert ',' !in t;
    }
  }

  /** Each letter a to d, in either case and with spaces around it, is its own index. */
  lemma ParseLetter(k: nat, pad: string)
    requires k < |Letters|
    requires forall j :: 0 <= j < |pad| ==> pad[j] == ' '
    ensures ParseAnswer(pad + [Letters[k]] + pad) == Success(Single(k))
    ensures ParseAnswer(pad + ["ABCD"[k]] + pad) == Success(Single(k))
  {
    assert Letters[k] != ' ' && "ABCD"[k] != ' ';
    StripPad(pad, [Letters[k]]);
    StripPad(pad, ["ABCD"[k]]);
    ParseSingleIff(pad + [Letters[k]] + pad, k);
    ParseSingleIff(pad + ["ABCD"[k]] + pad, k);
  }

  lemma {:induction false} StripPad(pad: string, core: string)
    requires forall j :: 0 <= j < |pad| ==> pad[j] == ' '
    requires ' ' !in core
    ensures StripSpaces(pad + core + pad) == core
  {
    if |pad| == 0 {
      assert pad + core + pad == core;
      StripSpacesIdentity(core);
    } else {
      var s := pad + core + pad;
      assert s[0] == ' ';
      StripTail(pad[1..] + core, pad);
      assert s[1..] == pad[1..] + core + pad;
      StripPad(pad[1..], core);
      StripTail(pad[1..] + core, pad[1..]);
      StripTail(core, pad[1..]);
      StripTail(core, pad);
    }
  }

  lemma {:induction false} StripTail(s: string, pad: string)
    requires forall j :: 0 <= j < |pad| ==> pad[j] == ' '
    ensures StripSpaces(s + pad) == StripSpaces(s)
  {
    if |s| == 0 {
      assert s + pad == pad;
      StripAllSpaces(pad);
    } else {
      assert (s + pad)[1..] == s[1..] + pad;
      StripTail(s[1..], pad);
    }
  }

  lemma {:induction false} StripAllSpaces(pad: string)
    requires forall j :: 0 <= j < |pad| ==> pad[j] == ' '
    ensures StripSpaces(pad) == ""
  {
    if |pad| > 0 {
      StripAllSpaces(pad[1..]);
    }
  }

  /**
   * An entry parses to a list exactly when its normal form holds a comma and
   * every comma-separated token is a letter; the list has one index per
   * token, in token order, each below the number of letters.
   */
  lemma ParseMultiIff(s: string, xs: seq<int>)
    ensures ParseAnswer(s) == Success(Multi(xs)) <==>
            var t := Normalize(s);
            && ',' in t
            && |xs| == |Split(t, ',')|
            && forall k :: 0 <= k < |xs| ==> 0 <= xs[k] < |Letters| && Split(t, ',')[k] == [Letters[xs[k]]]
  {
    var t := Normalize(s);
    var tokens := Split(t, ',');
    if ',' in t && |xs| == |tokens| &&
       forall k :: 0 <= k < |xs| ==> 0 <= xs[k] < |Letters| && tokens[k] == [Letters[xs[k]]] {
      forall k | 0 <= k < |xs| ensures LetterIndex(tokens[k]) == Some(xs[k] as nat) {
        LetterIndexOf(xs[k]);
      }
      var r := LetterIndices(tokens);
      assert r.Success?;
      forall k | 0 <= k < |xs| ensures r.value[k] == xs[k] { }
      assert r.value == xs;
    }
  }

  /** The mapping sends each letter to its position in the letter list. */
  lemma LetterIndexOf(k: int)
    requires 0 <= k < |Letters|
    ensures LetterIndex([Letters[k]]) == Some(k as nat)
  {
  }

  /**
   * An entry fails to parse exactly when one of its tokens is not a letter
   * a to d: there is no default index for an unknown or empty token.
   */
  lemma ParseFailsIff(s: string)
    ensures ParseAnswer(s).Failure? <==>
            var t := Normalize(s);
            var tokens := if ',' in t then Split(t, ',') else [t];
            exists k :: 0 <= k < |tokens| && LetterIndex(tokens[k]).None?
  {
    var t := Normalize(s);
    if ',' !in t && LetterIndex(t).None? {
      assert [t][0] == t;
    }
  }

  /** A list answer always holds at least two indices: a comma makes two tokens. */
  lemma MultiHasTwoIndices(s: string)
    requires ParseAnswer(s).Success? && ParseAnswer(s).value.Multi?
    ensures |ParseAnswer(s).value.indices| >= 2
  {
    var t := Normalize(s);
    OccurrencesPositive(t, ',');
  }

  lemma {:induction false} OccurrencesPositive(s: string, sep: char)
    requires sep in s
    ensures Occurrences(s, sep) >= 1
  {
    if s[0] != sep {
      assert sep in s[1..];
      OccurrencesPositive(s[1..], sep);
    }
  }

  /** Subjects of the answer key, in declaration order, with their letter strings. */
  const RawKey: seq<(string, seq<string>)> := [
    ("Python", ["a", "c", "c", "c", "c", "a", "c", "c", "b", "c",
                "a", "a", "d", "a", "b", "a,b,c,d", "c", "d", "a", "b"]),
    ("EDA", ["a", "d", "b", "a", "c", "b", "a", "b", "d", "c",
             "c", "a", "b", "c", "a", "b", "d", "b", "a", "b"]),
    ("SQL", ["c", "c", "c", "b", "b", "a", "c", "b", "d", "a",
             "c", "b", "c", "c", "a", "b", "b", "a", "a,b", "b"]),
    ("PowerBI", ["b", "c", "a", "b", "c", "b", "b", "c", "c", "b",
                 "b", "b", "d", "b", "a", "b", "b", "b", "b", "b"]),
    ("Statistics", ["a", "b", "c", "b", "c", "b", "b", "b", "a", "b",
                    "c", "b", "c", "b", "b", "b", "c", "a", "b", "c"])
  ]

  /** Questions per subject, in subject order: twenty for each of the five subjects. */
  const Questions: seq<nat> := [20, 20, 20, 20, 20]

  lemma QuestionsAreTwenty()
    ensures |Questions| == 5 && forall i :: 0 <= i < |Questions| ==> Questions[i] == 20
  {
  }

  /** Parses one subject's entries in order; the first bad entry aborts. */
  function ParseSubject(entries: seq<string>): (r: Result<seq<Answer>, ParseError>)
    ensures r.Success? <==> forall j :: 0 <= j < |entries| ==> ParseAnswer(entries[j]).Success?
    ensures r.Success? ==>
              && |r.value| == |entries|
              && forall j :: 0 <= j < |entries| ==> ParseAnswer(entries[j]) == Success(r.value[j])
  {
    if |entries| == 0 then Success([])
    else
      match ParseAnswer(entries[0])
      case Failure(e) => Failure(e)
      case Success(a) =>
        match ParseSubject(entries[1..])
        case Failure(e) => Failure(e)
        case Success(rest) =>
          var r := [a] + rest;
          assert forall j :: 1 <= j < |entries| ==> entries[j] == entries[1..][j - 1] && r[j] == rest[j - 1];
          Success(r)
  }

  /** Builds the key: one parsed answer list per subject, in subject order. */
  function BuildKey(raw: seq<(string, seq<string>)>): (r: Result<seq<seq<Answer>>, ParseError>)
    ensures r.Success? <==> forall i, j :: 0 <= i < |raw| && 0 <= j < |raw[i].1| ==>
              ParseAnswer(raw[i].1[j]).Success?
    ensures r.Success? ==>
              && |r.value| == |raw|
              && forall i :: 0 <= i < |raw| ==>
                   && |r.value[i]| == |raw[i].1|
                   && forall j :: 0 <= j < |raw[i].1| ==> ParseAnswer(raw[i].1[j]) == Success(r.value[i][j])
  {
    if |raw| == 0 then Success([])
    else
      match ParseSubject(raw[0].1)
      case Failure(e) => Failure(e)
      case Success(first) =>
        match BuildKey(raw[1..])
        case Failure(e) => Failure(e)
        case Success(rest) =>
          assert forall i :: 1 <= i < |raw| ==> raw[i] == raw[1..][i - 1];
          Success([first] + rest)
  }

  /** Each answer of a built key is the parse of the matching raw entry. */
  lemma KeyEntryParsed(raw: seq<(string, seq<string>)>, key: seq<seq<Answer>>, i: nat, j: nat)
    requires BuildKey(raw) == Success(key)
    requires i < |raw| && j < |raw[i].1|
    ensures i < |key| && j < |key[i]| && ParseAnswer(raw[i].1[j]) == Success(key[i][j])
  {
  }

  lemma PythonSixteenthEntry()
    ensures |RawKey| > 0 && |RawKey[0].1| > 15 && RawKey[0].1[15] == "a,b,c,d"
  {
  }

  /** Every entry of the raw table is one of the four letters or a comma list of them. */
  lemma RawKeyEntriesParse(i: nat, j: nat)
    requires i < |RawKey| && j < |RawKey[i].1|
    ensures ParseAnswer(RawKey[i].1[j]).Success?
  {
    RawKeyEntryForms(i, j);
    var e := RawKey[i].1[j];
    if e == "a,b" || e == "a,b,c,d" {
      ShippedListsParse();
    } else {
      LetterEntryParses(e);
    }
  }

  lemma RawKeyEntryForms(i: nat, j: nat)
    requires i < |RawKey| && j < |RawKey[i].1|
    ensures RawKey[i].1[j] in {"a", "b", "c", "d", "a,b", "a,b,c,d"}
  {
  }

  lemma ShippedListsParse()
    ensures ParseAnswer("a,b") == Success(Multi([0, 1]))
    ensures ParseAnswer("a,b,c,d") == Success(Multi([0, 1, 2, 3]))
  {
    PairParses();
    QuadrupleParses();
  }

  lemma PairParses()
    ensures ParseAnswer("a,b") == Success(Multi([0, 1]))
  {
    ListEntryParses("a,b", [0, 1]);
  }

  lemma QuadrupleParses()
    ensures ParseAnswer("a,b,c,d") == Success(Multi([0, 1, 2, 3]))
  {
    var s, xs := "a,b,c,d", [0, 1, 2, 3];
    assert forall k :: 0 <= k < |xs| ==> s[2 * k] == Letters[xs[k]] by {
      assert s[0] == Letters[0] && s[2] == Letters[1] && s[4] == Letters[2] && s[6] == Letters[3];
    }
    assert forall k :: 0 <= k < |xs| - 1 ==> s[2 * k + 1] == ',' by {
      assert s[1] == ',' && s[3] == ',' && s[5] == ',';
    }
    ListEntryParses(s, xs);
  }

  lemma LetterEntryParses(e: string)
    requires e in {"a", "b", "c", "d"}
    ensures ParseAnswer(e).Success?
  {
    var k := LetterIndex(e).value;
    ParseSingleIff(e, k);
    assert Normalize(e) == e;
  }

  /** A space-free lower-case comma list of letters parses to its indices. */
  lemma ListEntryParses(s: string, xs: seq<int>)
    requires |xs| >= 2 && forall k :: 0 <= k < |xs| ==> 0 <= xs[k] < |Letters|
    requires |s| == 2 * |xs| - 1
    requires forall k :: 0 <= k < |xs| ==> s[2 * k] == Letters[xs[k]]
    requires forall k :: 0 <= k < |xs| - 1 ==> s[2 * k + 1] == ','
    ensures ParseAnswer(s) == Success(Multi(xs))
  {
    assert s[2 * 0 + 1] == ',';
    assert ' ' !in s by {
      forall p | 0 <= p < |s| ensures s[p] != ' ' {
        if p % 2 == 0 { assert s[2 * (p / 2)] == Letters[xs[p / 2]]; }
        else { assert s[2 * (p / 2) + 1] == ','; }
      }
    }
    StripSpacesIdentity(s);
    assert Normalize(s) == s by {
      forall p | 0 <= p < |s| ensures LowerChar(s[p]) == s[p] {
        if p % 2 == 0 { assert s[2 * (p / 2)] == Letters[xs[p / 2]]; }
        else { assert s[2 * (p / 2) + 1] == ','; }
      }
    }
    SplitLetterList(s, xs);
    ParseMultiIff(s, xs);
  }

  lemma {:induction false} SplitLetterList(s: string, xs: seq<int>)
    requires |xs| >= 1 && forall k :: 0 <= k < |xs| ==> 0 <= xs[k] < |Letters|
    requires |s| == 2 * |xs| - 1
    requires forall k :: 0 <= k < |xs| ==> s[2 * k] == Letters[xs[k]]
    requires forall k :: 0 <= k < |xs| - 1 ==> s[2 * k + 1] == ','
    ensures |Split(s, ',')| == |xs|
    ensures forall k :: 0 <= k < |xs| ==> Split(s, ',')[k] == [Letters[xs[k]]]
  {
    if |xs| == 1 {
      assert s == [Letters[xs[0]]];
      assert Split(s[1..], ',') == [""];
      assert Split(s, ',') == [[Letters[xs[0]]]];
    } else {
      var tail := s[2..];
      forall k | 0 <= k < |xs| - 1 ensures tail[2 * k] == Letters[xs[1..][k]] {
        assert s[2 * (k + 1)] == Letters[xs[k + 1]];
      }
      forall k | 0 <= k < |xs| - 2 ensures tail[2 * k + 1] == ',' {
        assert s[2 * (k + 1) + 1] == ',';
      }
      SplitLetterList(tail, xs[1..]);
      assert s[1..][1..] == tail;
      assert s[0] == Letters[xs[0]];
      assert Split(s[1..], ',') == [""] + Split(tail, ',');
      var r := Split(s, ',');
      assert r == [[s[0]] + ""] + Split(tail, ',');
    }
  }

  /**
   * The shipped table parses: one answer list per subject, in table order,
   * each as long as that subject's question count.
   */
  lemma ShippedKeyShape()
    ensures BuildKey(RawKey).Success?
    ensures |BuildKey(RawKey).value| == |Questions|
    ensures forall i :: 0 <= i < |Questions| ==> |BuildKey(RawKey).value[i]| == Questions[i]
  {
    AllRawEntriesParse();
    var r := BuildKey(RawKey);
    assert r.Success?;
    RawKeyShape();
  }

  lemma RawKeyShape()
    ensures |RawKey| == |Questions|
    ensures forall i :: 0 <= i < |Questions| ==> |RawKey[i].1| == Questions[i]
  {
  }

  lemma AllRawEntriesParse()
    ensures forall i, j :: 0 <= i < |RawKey| && 0 <= j < |RawKey[i].1| ==> ParseAnswer(RawKey[i].1[j]).Success?
  {
    forall i, j | 0 <= i < |RawKey| && 0 <= j < |RawKey[i].1|
      ensures ParseAnswer(RawKey[i].1[j]).Success?
    {
      RawKeyEntriesParse(i, j);
    }
  }
}
