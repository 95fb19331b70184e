/**
 * Parsing the text of a player link, `"<Position><Name>(<Number>)"`, with
 * the four-word position vocabulary tried in order.
 */
module PlayerText {
  import opened Text

  datatype Position = Goalkeeper | Defender | Midfielder | Forward | Unknown {
    function Word(): string {
      match this
      case Goalkeeper => "Goalkeeper"
      case Defender => "Defender"
      case Midfielder => "Midfielder"
      case Forward => "Forward"
      case Unknown => "Unknown"
    }
  }

  /** The vocabulary, in the order the parser tries it. */
  const Positions: seq<Position> := [Goalkeeper, Defender, Midfielder, Forward]

  /** The three fields parsed out of a player link's text. */
  datatype Parsed = Parsed(name: string, position: Position, number: string)

  /**
   * The fields once `pos` has matched and `rest` follows it: with both
   * parentheses present, the stripped text before the first `(` is the
   * name and the stripped text after it, without `)`, is the number;
   * otherwise `rest` itself is the name and there is no number.
   */
  function SplitRest(pos: Position, rest: string): (r: Parsed)
    ensures r.position == pos
    ensures '(' in rest && ')' in rest ==>
      && r.name == Strip(Before(rest, '('))
      && r.number == Strip(RemoveAll(SecondField(rest, '('), ')'))
      && Trimmed(r.name) && Trimmed(r.number)
      && '(' !in r.name && '(' !in r.number && ')' !in r.number
    ensures !('(' in rest && ')' in rest) ==> r.name == rest && r.number == ""
  {
    if '(' in rest && ')' in rest then
      var name := Strip(Before(rest, '('));
      var number := Strip(RemoveAll(SecondField(rest, '('), ')'));
      StripChars(Before(rest, '('));
      StripChars(RemoveAll(SecondField(rest, '('), ')'));
      assert '(' !in name && '(' !in number && ')' !in number;
      Parsed(name, pos, number)
    else
      Parsed(rest, pos, "")
  }

  /** The index of the first word of `ps` that prefixes `content`, `|ps|` when none does. */
  function MatchIndex(content: string, ps: seq<Position>): (r: nat)
    ensures r <= |ps|
    ensures r < |ps| ==> StartsWith(content, ps[r].Word())
    ensures forall j | 0 <= j < r :: !StartsWith(content, ps[j].Word())
  {
    if ps == [] || StartsWith(content, ps[0].Word()) then 0
    else
      var m := MatchIndex(content, ps[1..]);
      assert forall j | 1 <= j <= m :: ps[j] == ps[1..][j - 1];
      1 + m
  }

  /**
   * The parse with vocabulary `ps`: the first word of `ps` that prefixes
   * `content` is the position; when none does, the position is `Unknown`,
   * the whole text is the name and there is no number.
   */
  function ParseWith(content: string, ps: seq<Position>): (r: Parsed)
    requires Unknown !in ps
    ensures r.position == Unknown <==> forall i | 0 <= i < |ps| :: !StartsWith(content, ps[i].Word())
    ensures r.position == Unknown ==> r == Parsed(content, Unknown, "")
    ensures r.position != Unknown ==>
      && r.position == ps[MatchIndex(content, ps)]
      && StartsWith(content, r.position.Word())
      && r == SplitRest(r.position, content[|r.position.Word()|..])
  {
    var m := MatchIndex(content, ps);
    if m == |ps| then Parsed(content, Unknown, "")
    else
      var r := SplitRest(ps[m], content[|ps[m].Word()|..]);
      assert ps[m] in ps;
      r
  }

  function ParseText(content: string): Parsed {
    ParseWith(content, Positions)
  }

  /**
   * The parse as the scraper runs it: a loop over the vocabulary that
   * stops at the first word prefixing `content`.
   */
  method ParsePlayerText(content: string) returns (name: string, position: Position, number: string)
    ensures Parsed(name, position, number) == ParseText(content)
  {
    position, name, number := Unknown, content, "";
    var i := 0;
    while i < |Positions|
      invariant 0 <= i <= |Positions|
      invariant forall j | 0 <= j < i :: !StartsWith(content, Positions[j].Word())
      invariant position == Unknown && name == content && number == ""
    {
      var pos := Positions[i];
      if StartsWith(content, pos.Word()) {
        position := pos;
        var rest := content[|pos.Word()|..];
        assert MatchIndex(content, Positions) == i;
        assert ParseText(content) == SplitRest(pos, rest);
        if '(' in rest && ')' in rest {
          name := Strip(Before(rest, '('));
          number := Strip(RemoveAll(SecondField(rest, '('), ')'));
        } else {
          name := rest;
        }
        break;
      }
      i := i + 1;
    }
  }

  /** No word of the vocabulary is a prefix of a text that starts with another. */
  lemma {:induction false} WordsExclusive(p: Position, q: Position, content: string)
    requires p in Positions && q in Positions
    requires StartsWith(content, p.Word()) && StartsWith(content, q.Word())
    ensures p == q
  {
    assert content[0] == p.Word()[0] == q.Word()[0];
  }

  /** A text that starts with a vocabulary word is parsed with that word as position. */
  lemma {:induction false} ParseKnownPrefix(pos: Position, rest: string)
    requires pos in Positions
    ensures ParseText(pos.Word() + rest) == SplitRest(pos, rest)
  {
    var content := pos.Word() + rest;
    assert content[..|pos.Word()|] == pos.Word();
    assert content[|pos.Word()|..] == rest;
    var r := ParseText(content);
    assert r.position != Unknown by {
      assert exists i | 0 <= i < |Positions| :: Positions[i] == pos;
    }
    WordsExclusive(r.position, pos, content);
  }

  lemma SplitFormatted(pos: Position, name: string, number: string)
    requires Trimmed(name) && Trimmed(number)
    requires '(' !in name && '(' !in number && ')' !in number
    ensures SplitRest(pos, name + "(" + number + ")") == Parsed(name, pos, number)
  {
    var tail := number + ")";
    var rest := name + ['('] + tail;
    assert rest == name + "(" + number + ")";
    assert rest[|name|] == '(' && rest[|rest| - 1] == ')';
    BeforeConcat(name, '(', tail);
    assert After(rest, '(') == tail;
    assert '(' !in tail;
    assert SecondField(rest, '(') == tail;
    RemoveAllSnoc(number, ')');
    StripTrimmed(name);
    StripTrimmed(number);
  }

  /**
   * Formatting a player as `"<Position><Name>(<Number>)"` and parsing the
   * text gives the player back, when name and number carry no surrounding
   * whitespace and no parenthesis that would be taken for the delimiters.
   */
  lemma {:induction false} ParseFormatted(pos: Position, name: string, number: string)
    requires pos in Positions
    requires Trimmed(name) && Trimmed(number)
    requires '(' !in name && '(' !in number && ')' !in number
    ensures ParseText(pos.Word() + name + "(" + number + ")") == Parsed(name, pos, number)
  {
    var rest := name + "(" + number + ")";
    Assoc(pos.Word(), name, "(", number, ")");
    ParseKnownPrefix(pos, rest);
    SplitFormatted(pos, name, number);
  }

  /** Regrouping a five-part concatenation. */
  lemma Assoc(a: string, b: string, c: string, d: string, e: string)
    ensures a + b + c + d + e == a + (b + c + d + e)
  {
  }

  /** Without parentheses, the text after the position word is the name, unstripped. */
  lemma {:induction false} ParseWithoutNumber(pos: Position, rest: string)
    requires pos in Positions
    requires '(' !in rest || ')' !in rest
    ensures ParseText(pos.Word() + rest) == Parsed(rest, pos, "")
  {
    ParseKnownPrefix(pos, rest);
  }

  /** `"MidfielderJude Bellingham(5)"` is Jude Bellingham, midfielder, number 5. */
  lemma ParseExample()
    ensures ParseText("MidfielderJude Bellingham(5)") == Parsed("Jude Bellingham", Midfielder, "5")
  {
    var name := "Jude Bellingham";
    assert Trimmed(name) by {
      assert name[0] == 'J' && name[|name| - 1] == 'm';
    }
    assert '(' !in name by {
      assert forall i | 0 <= i < |name| :: name[i] != '(';
    }
    assert Trimmed("5");
    assert "MidfielderJude Bellingham(5)" == Midfielder.Word() + name + "(" + "5" + ")";
    ParseFormatted(Midfielder, name, "5");
  }

  /** A text that is a bare position word yields an empty name. */
  lemma BareWordExample()
    ensures ParseText("Goalkeeper") == Parsed("", Goalkeeper, "")
  {
    ParseWithoutNumber(Goalkeeper, "");
    assert Goalkeeper.Word() + "" == "Goalkeeper";
  }
}
