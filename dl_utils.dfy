/** `get_stylised_name_from_fpath` of `utils/dl_utils.py`: the display name
    of a flag file, made from its path by a fixed chain of string steps.
    The batching code of the same file is module `Batching`. */
module DlUtils {
  import opened Wrappers
  import Paths
  import PercentDecoding
  import opened Text

  /** The percent-decoded file stem, cut before its first "_(" (which drops
      Wikipedia's "_(converted)" style suffixes). */
  function DecodedStem(baseName: string): string {
    CutAtFirst(PercentDecoding.Unquote(Paths.SplitExt(baseName).0), "_(")
  }

  /** "Flag_of_" deleted, then every '_' turned into a space. */
  function Spaced(decoded: string): (r: string)
    ensures '_' !in r
  {
    var withoutPrefix := Replace(decoded, "Flag_of_", "");
    ReplaceChar(withoutPrefix, '_', ' ');
    Replace(withoutPrefix, "_", " ")
  }

  /** A leading "The " removed, once. */
  function StripThe(titled: string): (r: string)
    ensures StartsWith(titled, "The ") ==> "The " + r == titled
    ensures !StartsWith(titled, "The ") ==> r == titled
  {
    if StartsWith(titled, "The ") then titled[|"The "|..] else titled
  }

  /** `get_stylised_name_from_fpath`: the file's basename, unchanged, and
      the territory name made from it. */
  function StylisedName(fpath: string): (r: (string, string))
    ensures r.0 == Paths.Basename(fpath)
    ensures '_' !in r.1
  {
    var baseName := Paths.Basename(fpath);
    var spaced := Spaced(DecodedStem(baseName));
    TitleKeepsUncased(spaced, '_');
    (baseName, StripThe(Title(spaced)))
  }

  /** The file stem of a Wikimedia flag image: "Flag_of_" and the
      territory's words, joined by '_'. */
  function FlagStem(words: seq<string>): string {
    "Flag_of_" + Join(words, "_")
  }

  /** `quote` applied to each word. */
  function QuoteAll(ws: seq<string>): (r: seq<string>)
    ensures |r| == |ws| && forall i :: 0 <= i < |ws| ==> r[i] == PercentDecoding.Quote(ws[i])
  {
    if ws == [] then [] else [PercentDecoding.Quote(ws[0])] + QuoteAll(ws[1..])
  }

  /** Percent-encoding a join encodes word by word when the separator is
      its own encoding. */
  lemma {:induction false} QuoteJoin(ws: seq<string>, sep: string)
    requires PercentDecoding.Quote(sep) == sep
    ensures PercentDecoding.Quote(Join(ws, sep)) == Join(QuoteAll(ws), sep)
  {
    if |ws| > 1 {
      QuoteJoin(ws[1..], sep);
      PercentDecoding.QuoteAppend(ws[0], sep);
      PercentDecoding.QuoteAppend(ws[0] + sep, Join(ws[1..], sep));
      assert QuoteAll(ws)[1..] == QuoteAll(ws[1..]);
    }
  }

  /** The name of a flag file `Flag_of_<w1>_..._<wn><tail>.<ext>`, whose stem
      is stored percent-encoded, is the words joined by spaces and
      title-cased, less a leading "The ". `tail` is empty or a "_(...)"
      qualifier; `encoded` and `encodedTail` are the percent-encoded forms of
      the words and the tail. */
  lemma StylisedNameOfFlagFile(words: seq<string>, encoded: seq<string>, tail: string,
                               encodedTail: string, ext: string)
    requires |words| > 0
    requires forall i :: 0 <= i < |words| ==>
      '_' !in words[i] && '(' !in words[i] && '/' !in words[i]
    requires forall i :: !OccursAt(Join(words, "_"), "Flag_of_", i)
    requires tail == [] || (StartsWith(tail, "_(") && '/' !in tail)
    requires '/' !in ext && '.' !in ext
    requires QuoteAll(words) == encoded && PercentDecoding.Quote(tail) == encodedTail
    ensures var fpath := FlagStem(encoded) + encodedTail + "." + ext;
            StylisedName(fpath) == (fpath, StripThe(Title(Join(words, " "))))
  {
    QuoteFlagStem(words);
    PercentDecoding.QuoteAppend(FlagStem(words), tail);
    DecodedStemOfFlagFile(words, tail, ext);
    SpacedFlagStem(words);
  }

  /** A flag stem is percent-encoded word by word. */
  lemma QuoteFlagStem(words: seq<string>)
    ensures PercentDecoding.Quote(FlagStem(words)) == FlagStem(QuoteAll(words))
  {
    QuoteFlagPrefix(Join(words, "_"));
    QuoteUnderscoreJoin(words);
  }

  lemma QuoteFlagPrefix(rest: string)
    ensures PercentDecoding.Quote("Flag_of_" + rest) == "Flag_of_" + PercentDecoding.Quote(rest)
  {
    QuoteFlagOf("Flag_of_");
    PercentDecoding.QuoteAppend("Flag_of_", rest);
  }

  lemma QuoteFlagOf(prefix: string)
    requires prefix == "Flag_of_"
    ensures PercentDecoding.Quote(prefix) == prefix
  {
    PercentDecoding.QuoteOfSafe(prefix);
  }

  lemma QuoteUnderscoreJoin(words: seq<string>)
    ensures PercentDecoding.Quote(Join(words, "_")) == Join(QuoteAll(words), "_")
  {
    PercentDecoding.QuoteOfSafe("_");
    QuoteJoin(words, "_");
  }

  /** The basename and stem of a flag file's path. */
  lemma DecodedStemOfFlagFile(words: seq<string>, tail: string, ext: string)
    requires forall i :: 0 <= i < |words| ==> '(' !in words[i] && '/' !in words[i]
    requires tail == [] || (StartsWith(tail, "_(") && '/' !in tail)
    requires '/' !in ext && '.' !in ext
    ensures var fpath := PercentDecoding.Quote(FlagStem(words) + tail) + "." + ext;
            Paths.Basename(fpath) == fpath && DecodedStem(fpath) == FlagStem(words)
  {
    var stem := PercentDecoding.Quote(FlagStem(words) + tail);
    QuotedFlagStem(words, tail);
    SplitFlagPath(stem, ext);
    PercentDecoding.UnquoteOfQuote(FlagStem(words) + tail);
    CutFlagStem(words, tail);
  }

  lemma SplitFlagPath(stem: string, ext: string)
    requires '/' !in stem && '/' !in ext && '.' !in ext && |stem| > 0 && stem[0] == 'F'
    ensures Paths.Basename(stem + "." + ext) == stem + "." + ext
    ensures Paths.SplitExt(stem + "." + ext).0 == stem
  {
    Paths.BasenameWithoutSlash(stem + "." + ext);
    Paths.SplitExtOfJoin(stem, ext);
  }

  lemma QuotedFlagStem(words: seq<string>, tail: string)
    requires forall i :: 0 <= i < |words| ==> '/' !in words[i]
    requires '/' !in tail
    ensures var stem := PercentDecoding.Quote(FlagStem(words) + tail);
            '/' !in stem && |stem| > 0 && stem[0] == 'F'
  {
    var base := FlagStem(words);
    NotInJoin(words, "_", '/');
    PercentDecoding.QuoteWithoutSlash(base + tail);
    assert base + tail == "F" + ("lag_of_" + Join(words, "_") + tail);
    PercentDecoding.QuoteAppend("F", "lag_of_" + Join(words, "_") + tail);
  }

  lemma CutFlagStem(words: seq<string>, tail: string)
    requires forall i :: 0 <= i < |words| ==> '(' !in words[i]
    requires tail == [] || StartsWith(tail, "_(")
    ensures CutAtFirst(FlagStem(words) + tail, "_(") == FlagStem(words)
  {
    var base := FlagStem(words);
    NotInJoin(words, "_", '(');
    if tail == [] {
      CutAtFirstWithoutLastChar(base, "_(");
      assert base + tail == base;
    } else {
      assert base + tail == base + "_(" + tail[2..];
      CutAtFirstBefore(base, "_(", tail[2..]);
    }
  }

  /** Deleting "Flag_of_" and spacing out the rest of a flag stem. */
  lemma SpacedFlagStem(words: seq<string>)
    requires |words| > 0
    requires forall i :: 0 <= i < |words| ==> '_' !in words[i]
    requires forall i :: !OccursAt(Join(words, "_"), "Flag_of_", i)
    ensures Spaced(FlagStem(words)) == Join(words, " ")
  {
    var rest := Join(words, "_");
    ReplaceAtStart("Flag_of_", rest, "");
    ReplaceWithoutOccurrence(rest, "Flag_of_", "");
    assert "" + rest == rest;
    ReplaceCharJoin(words, '_', ' ');
  }
}

