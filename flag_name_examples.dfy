/** The worked examples of `get_stylised_name_from_fpath`'s doc comment:
    each stage shown on the example's own words, and each example path
    carried through the whole pipeline by `DlUtils.StylisedNameOfFlagFile`,
    with the literals passed in as parameters. */
module FlagNameExamples {
  import opened PercentDecoding
  import opened Text
  import opened DlUtils

  lemma QuoteParens(open: string, close: string)
    requires open == "(" && close == ")"
    ensures Quote(open) == "%28" && Quote(close) == "%29"
  {
    assert Utf8Encode(open) == [0x28] && Utf8Encode(close) == [0x29];
    assert !IsSafe(0x28) && !IsSafe(0x29);
    assert HexDigit(2) == '2' && HexDigit(8) == '8' && HexDigit(9) == '9';
    assert PercentEncode([0x28]) == EncodeByte(0x28) && PercentEncode([0x29]) == EncodeByte(0x29);
  }

  lemma QuoteParenthesised(open: string, word: string, close: string)
    requires open == "(" && word == "converted" && close == ")"
    ensures Quote(open + word + close) == "%28" + word + "%29"
  {
    QuoteOfSafe(word);
    QuoteAppend(open, word);
    QuoteAppend(open + word, close);
    QuoteParens(open, close);
  }

  /** "Flag_of_Australia_%28converted%29.jpg": the qualifier decodes to
      "(converted)" ... */
  lemma AustraliaQualifierDecodes()
    ensures Unquote("%28converted%29") == "(converted)"
  {
    assert "(" + "converted" + ")" == "(converted)";
    assert "%28" + "converted" + "%29" == "%28converted%29";
    QuoteParenthesised("(", "converted", ")");
    UnquoteOfQuote("(converted)");
  }

  /** ... and is cut off, "_(" and all. */
  lemma AustraliaQualifierCut()
    ensures CutAtFirst("Flag_of_Australia_(converted)", "_(") == "Flag_of_Australia"
  {
    assert "Flag_of_Australia" + "_(" + "converted)" == "Flag_of_Australia_(converted)";
    CutAtFirstBefore("Flag_of_Australia", "_(", "converted)");
  }

  lemma QuoteOCircumflex()
    ensures Quote("ô") == "%C3%B4"
  {
  }

  lemma QuoteCote(c: string, o: string, te: string)
    requires c == "C" && o == "ô" && te == "te"
    ensures Quote(c + o + te) == c + "%C3%B4" + te
  {
    QuoteOfSafe(c);
    QuoteOfSafe(te);
    QuoteOCircumflex();
    QuoteAppend(c, o);
    QuoteAppend(c + o, te);
  }

  lemma QuoteDApostrophe()
    ensures Quote("d'") == "d%27"
  {
  }

  lemma QuoteApostrophe(d: string, ivoire: string)
    requires d == "d'" && ivoire == "Ivoire"
    ensures Quote(d + ivoire) == "d%27" + ivoire
  {
    QuoteOfSafe(ivoire);
    QuoteDApostrophe();
    QuoteAppend(d, ivoire);
  }

  /** "Flag_of_C%C3%B4te_d%27Ivoire.jpg": the first word decodes to "Côte",
      from the two UTF-8 bytes of 'ô' ... */
  lemma CoteDecodes()
    ensures Unquote("C%C3%B4te") == "Côte"
  {
    assert "C" + "ô" + "te" == "Côte";
    assert "C" + "%C3%B4" + "te" == "C%C3%B4te";
    QuoteCote("C", "ô", "te");
    UnquoteOfQuote("Côte");
  }

  /** ... the second to "d'Ivoire" ... */
  lemma DIvoireDecodes()
    ensures Unquote("d%27Ivoire") == "d'Ivoire"
  {
    assert "d'" + "Ivoire" == "d'Ivoire";
    assert "d%27" + "Ivoire" == "d%27Ivoire";
    QuoteApostrophe("d'", "Ivoire");
    UnquoteOfQuote("d'Ivoire");
  }

  lemma TitleDIvoire()
    ensures Title("d'Ivoire") == "D'Ivoire"
  {
  }

  /** ... and title-casing capitalises the letter after the apostrophe as
      well as the 'd', and leaves "Côte" as it is. */
  lemma CoteDIvoireTitle()
    ensures Title(Join(["Côte", "d'Ivoire"], " ")) == Join(["Côte", "D'Ivoire"], " ")
  {
    var words := ["Côte", "d'Ivoire"];
    TitleJoin(words);
    assert Title(words[0]) == "Côte";
    TitleDIvoire();
    assert TitleAll(words) == ["Côte", "D'Ivoire"];
  }

  lemma TitleCongoWords()
    ensures Title("the") == "The" && Title("of") == "Of" && Title("Congo") == "Congo"
  {
  }

  lemma TitleDemocraticRepublic()
    ensures Title("Democratic") == "Democratic" && Title("Republic") == "Republic"
  {
  }

  /** "Flag_of_the_Democratic_Republic_of_the_Congo.jpg": every word is
      capitalised ... */
  lemma CongoTitle()
    ensures Title(Join(["the", "Democratic", "Republic", "of", "the", "Congo"], " "))
         == Join(["The", "Democratic", "Republic", "Of", "The", "Congo"], " ")
  {
    var words := ["the", "Democratic", "Republic", "of", "the", "Congo"];
    TitleJoin(words);
    TitleCongoWords();
    TitleDemocraticRepublic();
    assert TitleAll(words) == ["The", "Democratic", "Republic", "Of", "The", "Congo"];
  }

  /** ... and the leading "The " then goes. */
  lemma CongoStripThe()
    ensures StripThe("The Democratic Republic Of The Congo") == "Democratic Republic Of The Congo"
  {
  }

  // ---------------------------------------------------------------------
  // The doc-comment examples, end to end.

  /** `quote("_(" + q + ")")` for a qualifier of unreserved characters. */
  lemma QuoteQualifier(q: string)
    requires forall i :: 0 <= i < |q| ==> IsSafeChar(q[i])
    ensures Quote("_(" + q + ")") == "_%28" + q + "%29"
  {
    assert "_(" + q + ")" == "_" + "(" + q + ")";
    QuoteOfSafe("_");
    QuoteParens("(", ")");
    QuoteOfSafe(q);
    QuoteAppend("_", "(");
    QuoteAppend("_" + "(", q);
    QuoteAppend("_" + "(" + q, ")");
    assert "_" + "%28" + q + "%29" == "_%28" + q + "%29";
  }

  /** A one-word flag file with a "(qualifier)" suffix, both of unreserved
      characters, `Flag_of_<w>_%28<q>%29.<ext>`, is named after its word. */
  lemma QualifiedFlagFile(p: string, w: string, q: string, ext: string)
    requires forall i :: 0 <= i < |w| ==> IsSafeChar(w[i]) && w[i] != '_' && w[i] != '/' && w[i] != 'F'
    requires forall i :: 0 <= i < |q| ==> IsSafeChar(q[i]) && q[i] != '/'
    requires '/' !in ext && '.' !in ext
    requires p == "Flag_of_" + w + "_%28" + q + "%29." + ext
    ensures StylisedName(p) == (p, StripThe(Title(w)))
  {
    var words := [w];
    var tail, encodedTail := "_(" + q + ")", "_%28" + q + "%29";
    assert Join(words, "_") == w && Join(words, " ") == w;
    assert FlagStem(words) + encodedTail + "." + ext == p;
    assert StartsWith(tail, "_(") && '/' !in tail;
    QuoteOfSafe(w);
    assert QuoteAll(words) == words;
    NoOccurrenceWithoutFirstChar(w, "Flag_of_");
    QuoteQualifier(q);
    StylisedNameOfFlagFile(words, words, tail, encodedTail, ext);
  }

  /** The words of the qualified examples are made of letters. */
  lemma SafeWord(w: string)
    requires w == "Australia" || w == "Belgium" || w == "Canada" || w == "converted" || w == "civil" || w == "Pantone"
    ensures forall i :: 0 <= i < |w| ==> IsSafeChar(w[i]) && w[i] != '_' && w[i] != '/' && w[i] != 'F'
  {
  }

  /** A capitalised word without "The " is its own stylised name. */
  lemma PlainWord(w: string)
    requires w == "Australia" || w == "Belgium" || w == "Canada"
    ensures StripThe(Title(w)) == w
  {
  }

  /** ('Flag_of_Australia_%28converted%29.jpg', 'Australia') */
  lemma AustraliaStylised(p: string)
    requires p == "Flag_of_Australia_%28converted%29.jpg"
    ensures StylisedName(p) == (p, "Australia")
  {
    assert "Flag_of_" + "Australia" + "_%28" + "converted" + "%29." + "jpg" == p;
    SafeWord("Australia");
    SafeWord("converted");
    QualifiedFlagFile(p, "Australia", "converted", "jpg");
    PlainWord("Australia");
  }

  /** ('Flag_of_Belgium_%28civil%29.jpg', 'Belgium') */
  lemma BelgiumStylised(p: string)
    requires p == "Flag_of_Belgium_%28civil%29.jpg"
    ensures StylisedName(p) == (p, "Belgium")
  {
    assert "Flag_of_" + "Belgium" + "_%28" + "civil" + "%29." + "jpg" == p;
    SafeWord("Belgium");
    SafeWord("civil");
    QualifiedFlagFile(p, "Belgium", "civil", "jpg");
    PlainWord("Belgium");
  }

  /** ('Flag_of_Canada_%28Pantone%29.jpg', 'Canada') */
  lemma CanadaStylised(p: string)
    requires p == "Flag_of_Canada_%28Pantone%29.jpg"
    ensures StylisedName(p) == (p, "Canada")
  {
    assert "Flag_of_" + "Canada" + "_%28" + "Pantone" + "%29." + "jpg" == p;
    SafeWord("Canada");
    SafeWord("Pantone");
    QualifiedFlagFile(p, "Canada", "Pantone", "jpg");
    PlainWord("Canada");
  }

  /** A flag file without a qualifier, `Flag_of_<w1>_..._<wn>.<ext>` with
      the words stored percent-encoded. */
  lemma PlainFlagFile(p: string, words: seq<string>, encoded: seq<string>, ext: string)
    requires |words| > 0
    requires forall i :: 0 <= i < |words| ==>
      '_' !in words[i] && '(' !in words[i] && '/' !in words[i] && 'F' !in words[i]
    requires '/' !in ext && '.' !in ext
    requires QuoteAll(words) == encoded && p == FlagStem(encoded) + "." + ext
    ensures StylisedName(p) == (p, StripThe(Title(Join(words, " "))))
  {
    var stem, none: string := FlagStem(encoded), [];
    assert stem + none == stem;
    NotInJoin(words, "_", 'F');
    NoOccurrenceWithoutFirstChar(Join(words, "_"), "Flag_of_");
    assert Utf8Encode(none) == [] && Quote(none) == none;
    StylisedNameOfFlagFile(words, encoded, none, none, ext);
  }

  /** "Côte" and "d'Ivoire" are stored as "C%C3%B4te" and "d%27Ivoire". */
  lemma CoteDIvoireQuoted(words: seq<string>, encoded: seq<string>)
    requires words == ["Côte", "d'Ivoire"] && encoded == ["C%C3%B4te", "d%27Ivoire"]
    ensures QuoteAll(words) == encoded
  {
    assert "C" + "ô" + "te" == "Côte" && "C" + "%C3%B4" + "te" == "C%C3%B4te";
    assert "d'" + "Ivoire" == "d'Ivoire" && "d%27" + "Ivoire" == "d%27Ivoire";
    QuoteCote("C", "ô", "te");
    QuoteApostrophe("d'", "Ivoire");
  }

  /** Neither word holds a '_', '(', '/' or 'F'. */
  lemma CoteDIvoireLetters(words: seq<string>)
    requires words == ["Côte", "d'Ivoire"]
    ensures forall i :: 0 <= i < |words| ==>
      '_' !in words[i] && '(' !in words[i] && '/' !in words[i] && 'F' !in words[i]
  {
    forall i | 0 <= i < |words|
      ensures '_' !in words[i] && '(' !in words[i] && '/' !in words[i] && 'F' !in words[i]
    {
      LettersOnly(words[i]);
    }
  }

  lemma LettersOnly(w: string)
    requires w in ["Côte", "d'Ivoire"]
    ensures '_' !in w && '(' !in w && '/' !in w && 'F' !in w
  {
  }

  /** ('Flag_of_C%C3%B4te_d%27Ivoire.jpg', "Côte D'Ivoire") */
  lemma CoteDIvoireStylised(p: string)
    requires p == "Flag_of_C%C3%B4te_d%27Ivoire.jpg"
    ensures StylisedName(p) == (p, "Côte D'Ivoire")
  {
    var words, encoded := CoteDIvoireParts(p);
    PlainFlagFile(p, words, encoded, "jpg");
  }

  /** The words of the Côte d'Ivoire example, their encoded forms and the
      facts about them the pipeline needs. */
  lemma CoteDIvoireParts(p: string) returns (words: seq<string>, encoded: seq<string>)
    requires p == "Flag_of_C%C3%B4te_d%27Ivoire.jpg"
    ensures |words| > 0 && QuoteAll(words) == encoded && p == FlagStem(encoded) + "." + "jpg"
    ensures forall i :: 0 <= i < |words| ==>
      '_' !in words[i] && '(' !in words[i] && '/' !in words[i] && 'F' !in words[i]
    ensures StripThe(Title(Join(words, " "))) == "Côte D'Ivoire"
  {
    words, encoded := ["Côte", "d'Ivoire"], ["C%C3%B4te", "d%27Ivoire"];
    assert Join(["Côte", "D'Ivoire"], " ") == "Côte D'Ivoire";
    CoteDIvoirePath(p, encoded);
    CoteDIvoireQuoted(words, encoded);
    CoteDIvoireLetters(words);
    CoteDIvoireTitle();
  }

  /** The Côte d'Ivoire path is the flag stem of its encoded words. */
  lemma CoteDIvoirePath(p: string, encoded: seq<string>)
    requires p == "Flag_of_C%C3%B4te_d%27Ivoire.jpg" && encoded == ["C%C3%B4te", "d%27Ivoire"]
    ensures p == FlagStem(encoded) + "." + "jpg"
  {
    assert Join(encoded[1..], "_") == encoded[1];
    assert FlagStem(encoded) == "Flag_of_" + (encoded[0] + "_" + encoded[1]);
    assert "Flag_of_" + ("C%C3%B4te" + "_" + "d%27Ivoire") + "." + "jpg" == p;
  }

  /** ('Flag_of_the_Democratic_Republic_of_the_Congo.jpg', 'Democratic Republic Of The Congo') */
  lemma CongoStylised(p: string)
    requires p == "Flag_of_the_Democratic_Republic_of_the_Congo.jpg"
    ensures StylisedName(p) == (p, "Democratic Republic Of The Congo")
  {
    var words := CongoParts(p);
    PlainFlagFile(p, words, words, "jpg");
  }

  /** The words of the Congo example and the facts about them the pipeline
      needs; they are all their own encoding. */
  lemma CongoParts(p: string) returns (words: seq<string>)
    requires p == "Flag_of_the_Democratic_Republic_of_the_Congo.jpg"
    ensures |words| > 0 && QuoteAll(words) == words && p == FlagStem(words) + "." + "jpg"
    ensures forall i :: 0 <= i < |words| ==>
      '_' !in words[i] && '(' !in words[i] && '/' !in words[i] && 'F' !in words[i]
    ensures StripThe(Title(Join(words, " "))) == "Democratic Republic Of The Congo"
  {
    words := ["the", "Democratic", "Republic", "of", "the", "Congo"];
    CongoPath(p, words);
    CongoQuoted(words);
    CongoLetters(words);
    CongoName(words);
  }

  /** Title-cased, the words become "The Democratic Republic Of The Congo",
      and the leading "The " then goes. */
  lemma CongoName(words: seq<string>)
    requires words == ["the", "Democratic", "Republic", "of", "the", "Congo"]
    ensures StripThe(Title(Join(words, " "))) == "Democratic Republic Of The Congo"
  {
    var rest := ["Democratic", "Republic", "Of", "The", "Congo"];
    assert ["The", "Democratic", "Republic", "Of", "The", "Congo"] == ["The"] + rest;
    CongoTitle();
    StripTheJoin(rest);
    CongoNameSpelt(rest);
  }

  /** A leading word "The" goes, with the space after it. */
  lemma StripTheJoin(rest: seq<string>)
    requires |rest| > 0
    ensures StripThe(Join(["The"] + rest, " ")) == Join(rest, " ")
  {
    var tail := Join(rest, " ");
    assert (["The"] + rest)[1..] == rest;
    assert Join(["The"] + rest, " ") == "The" + " " + tail;
    assert "The" + " " == "The ";
    var s := "The " + tail;
    assert s[..4] == "The " && s[4..] == tail;
  }

  /** The Congo name, put together a word at a time. */
  lemma CongoNameSpelt(rest: seq<string>)
    requires rest == ["Democratic", "Republic", "Of", "The", "Congo"]
    ensures Join(rest, " ") == "Democratic Republic Of The Congo"
  {
    JoinOfFive(rest, " ");
    assert "Democratic" + " " == "Democratic ";
    assert "Democratic " + "Republic" == "Democratic Republic";
    assert "Democratic Republic" + " " == "Democratic Republic ";
    assert "Democratic Republic " + "Of" == "Democratic Republic Of";
    assert "Democratic Republic Of" + " " == "Democratic Republic Of ";
    assert "Democratic Republic Of " + "The" == "Democratic Republic Of The";
    assert "Democratic Republic Of The" + " " == "Democratic Republic Of The ";
    assert "Democratic Republic Of The " + "Congo" == "Democratic Republic Of The Congo";
  }

  /** The join of five words, spelt out. */
  lemma JoinOfFive(ws: seq<string>, sep: string)
    requires |ws| == 5
    ensures Join(ws, sep) == ws[0] + sep + ws[1] + sep + ws[2] + sep + ws[3] + sep + ws[4]
  {
    assert Join(ws[4..], sep) == ws[4];
    assert Join(ws[3..], sep) == ws[3] + sep + ws[4];
    assert Join(ws[2..], sep) == ws[2] + sep + ws[3] + sep + ws[4];
    assert Join(ws[1..], sep) == ws[1] + sep + ws[2] + sep + ws[3] + sep + ws[4];
  }

  /** The Congo path is the flag stem of its six words. */
  lemma CongoPath(p: string, words: seq<string>)
    requires p == "Flag_of_the_Democratic_Republic_of_the_Congo.jpg"
    requires words == ["the", "Democratic", "Republic", "of", "the", "Congo"]
    ensures p == FlagStem(words) + "." + "jpg"
  {
    CongoPathPieces(p);
    FlagStemOfSix(words);
  }

  /** The Congo path, put together a word at a time so that each step
      compares two short literals. */
  lemma CongoPathPieces(p: string)
    requires p == "Flag_of_the_Democratic_Republic_of_the_Congo.jpg"
    ensures p == "Flag_of_" + "the" + "_" + "Democratic" + "_" + "Republic" + "_" + "of" + "_" + "the" + "_" +
                 "Congo" + "." + "jpg"
  {
    assert "Flag_of_" + "the" == "Flag_of_the";
    assert "Flag_of_the" + "_" == "Flag_of_the_";
    assert "Flag_of_the_" + "Democratic" == "Flag_of_the_Democratic";
    assert "Flag_of_the_Democratic" + "_" == "Flag_of_the_Democratic_";
    assert "Flag_of_the_Democratic_" + "Republic" == "Flag_of_the_Democratic_Republic";
    assert "Flag_of_the_Democratic_Republic" + "_" == "Flag_of_the_Democratic_Republic_";
    assert "Flag_of_the_Democratic_Republic_" + "of" == "Flag_of_the_Democratic_Republic_of";
    assert "Flag_of_the_Democratic_Republic_of" + "_" == "Flag_of_the_Democratic_Republic_of_";
    assert "Flag_of_the_Democratic_Republic_of_" + "the" == "Flag_of_the_Democratic_Republic_of_the";
    assert "Flag_of_the_Democratic_Republic_of_the" + "_" == "Flag_of_the_Democratic_Republic_of_the_";
    assert "Flag_of_the_Democratic_Republic_of_the_" + "Congo" == "Flag_of_the_Democratic_Republic_of_the_Congo";
    assert "Flag_of_the_Democratic_Republic_of_the_Congo" + "." == "Flag_of_the_Democratic_Republic_of_the_Congo.";
    assert "Flag_of_the_Democratic_Republic_of_the_Congo." + "jpg" == p;
  }

  /** The stem of a six-word flag file, spelt out. */
  lemma FlagStemOfSix(ws: seq<string>)
    requires |ws| == 6
    ensures FlagStem(ws) == "Flag_of_" + ws[0] + "_" + ws[1] + "_" + ws[2] + "_" + ws[3] + "_" + ws[4] + "_" + ws[5]
  {
    assert Join(ws[5..], "_") == ws[5];
    assert Join(ws[4..], "_") == ws[4] + "_" + ws[5];
    assert Join(ws[3..], "_") == ws[3] + "_" + ws[4] + "_" + ws[5];
    assert Join(ws[2..], "_") == ws[2] + "_" + ws[3] + "_" + ws[4] + "_" + ws[5];
    assert Join(ws[1..], "_") == ws[1] + "_" + ws[2] + "_" + ws[3] + "_" + ws[4] + "_" + ws[5];
  }

  /** The Congo words are their own encoding ... */
  lemma CongoQuoted(words: seq<string>)
    requires words == ["the", "Democratic", "Republic", "of", "the", "Congo"]
    ensures QuoteAll(words) == words
  {
    forall i | 0 <= i < |words|
      ensures QuoteAll(words)[i] == words[i]
    {
      CongoWord(words[i]);
      QuoteOfSafe(words[i]);
    }
  }

  /** ... and hold no '_', '(', '/' or 'F'. */
  lemma CongoLetters(words: seq<string>)
    requires words == ["the", "Democratic", "Republic", "of", "the", "Congo"]
    ensures forall i :: 0 <= i < |words| ==>
      '_' !in words[i] && '(' !in words[i] && '/' !in words[i] && 'F' !in words[i]
  {
    forall i | 0 <= i < |words|
      ensures '_' !in words[i] && '(' !in words[i] && '/' !in words[i] && 'F' !in words[i]
    {
      CongoWord(words[i]);
    }
  }

  lemma CongoWord(w: string)
    requires w in ["the", "Democratic", "Republic", "of", "Congo"]
    ensures forall i :: 0 <= i < |w| ==> IsSafeChar(w[i]) && w[i] != '_' && w[i] != '/' && w[i] != 'F'
  {
  }
}
