/** What the operator sees: every command is printed after the password pattern has been
    replaced by the mask. These lemmas say what that display form is. */
module Display {
  import opened Text
  import opened Redaction
  import opened Schemas
  import opened Console
  import opened Commands

  /** The password is the only word the display can touch, in every command. */
  lemma OnlyPasswordShown(tool: string, words: seq<string>, k: nat, p: string)
    requires NoQuote(tool) && k < |words| && words[k] == PasswordWord(p)
    requires forall j :: 0 <= j < |words| && j != k ==> Redact(words[j]) == words[j]
    ensures MatchablePassword(p) ==> Redact(Render(tool, words)) == Render(tool, words[k := PasswordWord(Mask)])
    ensures NoQuote(p) && !MatchablePassword(p) ==> Redact(Render(tool, words)) == Render(tool, words)
  {
    RedactRender(tool, words);
    assert Redact(tool) == tool;
    RedactEachKeepsOthers(words, k);
    if MatchablePassword(p) {
      PasswordWordMasked(p);
    } else if NoQuote(p) {
      PasswordWordVisible(p);
      assert words[k := words[k]] == words;
    }
  }

  /** The dump as shown: with a password the pattern matches, exactly the command built with
      the mask as password; with any other quote-free password, the command unchanged. The
      other values must be quote-free, as host names, user names, ports and schema names are. */
  lemma DumpDisplay(src: Endpoint, createDb: bool, dbAnswer: string, createInfo: bool,
                    infoAnswer: string, databases: string)
    requires NoQuote(src.user) && NoQuote(src.host) && NoQuote(PortText(src.port))
    requires NoQuote(CleanSchemaList(databases))
    ensures MatchablePassword(src.pswd) ==>
      Redact(DumpCommand(src, createDb, dbAnswer, createInfo, infoAnswer, databases))
      == DumpCommand(src.(pswd := Mask), createDb, dbAnswer, createInfo, infoAnswer, databases)
    ensures NoQuote(src.pswd) && !MatchablePassword(src.pswd) ==>
      Redact(DumpCommand(src, createDb, dbAnswer, createInfo, infoAnswer, databases))
      == DumpCommand(src, createDb, dbAnswer, createInfo, infoAnswer, databases)
  {
    var words := DumpWords(src, createDb, dbAnswer, createInfo, infoAnswer, databases);
    DumpOptionsQuoteFree(src, createDb, dbAnswer, createInfo, infoAnswer, databases);
    QuoteFreeShown(words, 3);
    forall j | 0 <= j < |words| && j != 2 ensures Redact(words[j]) == words[j] {
      if j == 0 {
        assert Redact(ColumnStatistics) == ColumnStatistics;
      } else if j == 1 {
        QuotedValueUnchanged("--user='", src.user);
      }
    }
    OnlyPasswordShown(DumpTool, words, 2, src.pswd);
  }

  /** Past user and password, the dump's words hold no quote; the masked command differs
      only in the password word. */
  lemma DumpOptionsQuoteFree(src: Endpoint, createDb: bool, dbAnswer: string, createInfo: bool,
                             infoAnswer: string, databases: string)
    requires NoQuote(src.host) && NoQuote(PortText(src.port)) && NoQuote(CleanSchemaList(databases))
    ensures var words := DumpWords(src, createDb, dbAnswer, createInfo, infoAnswer, databases);
      && |words| >= 3 && words[0] == ColumnStatistics && words[1] == UserWord(src.user)
      && words[2] == PasswordWord(src.pswd)
      && DumpWords(src.(pswd := Mask), createDb, dbAnswer, createInfo, infoAnswer, databases)
         == words[2 := PasswordWord(Mask)]
      && forall j :: 3 <= j < |words| ==> NoQuote(words[j])
  {
    var words := DumpWords(src, createDb, dbAnswer, createInfo, infoAnswer, databases);
    var masked := DumpWords(src.(pswd := Mask), createDb, dbAnswer, createInfo, infoAnswer, databases);
    var d := if !createDb && Affirmative(dbAnswer) then 1 else 0;
    var i := if !createInfo && Affirmative(infoAnswer) then 1 else 0;
    var s := 3 + d + i;
    DumpLayout(src, createDb, dbAnswer, createInfo, infoAnswer, databases);
    DumpLayout(src.(pswd := Mask), createDb, dbAnswer, createInfo, infoAnswer, databases);
    forall j | 3 <= j < |words| ensures NoQuote(words[j]) && masked[j] == words[j] {
      if d == 1 && j == 3 {
      } else if i == 1 && j == 3 + d {
      } else if j == s {
        assert words[j] == SchemaWord(databases);
      } else if NonDefault(src.port) && j == s + 1 {
      } else {
        assert j == |words| - 1;
      }
    }
    assert masked == words[2 := PasswordWord(Mask)];
  }

  /** Quote-free words are shown as they are. */
  lemma QuoteFreeShown(words: seq<string>, n: nat)
    requires forall j :: n <= j < |words| ==> NoQuote(words[j])
    ensures forall j :: n <= j < |words| ==> Redact(words[j]) == words[j]
  {
    forall j | n <= j < |words| ensures Redact(words[j]) == words[j] {
      assert Redact(words[j]) == words[j];
    }
  }

  /** The load as shown, in the same two cases. */
  lemma LoadDisplay(trg: Endpoint, srcPort: Port)
    requires NoQuote(trg.user) && NoQuote(trg.host) && NoQuote(PortText(srcPort))
    ensures MatchablePassword(trg.pswd) ==>
      Redact(LoadCommand(trg, srcPort)) == LoadCommand(trg.(pswd := Mask), srcPort)
    ensures NoQuote(trg.pswd) && !MatchablePassword(trg.pswd) ==>
      Redact(LoadCommand(trg, srcPort)) == LoadCommand(trg, srcPort)
  {
    var words := LoadWords(trg, srcPort);
    forall j | 0 <= j < |words| && j != 1 ensures Redact(words[j]) == words[j] {
      if j == 0 {
        QuotedValueUnchanged("--user='", trg.user);
      } else if j == 2 {
        QuotedValueUnchanged("--host='", trg.host);
      } else {
        assert Redact(words[j]) == words[j];
      }
    }
    assert LoadWords(trg.(pswd := Mask), srcPort) == words[1 := PasswordWord(Mask)];
    OnlyPasswordShown(LoadTool, words, 1, trg.pswd);
  }

  /** The connectivity probe as shown, in the same two cases. The quotes around the query's
      text never start a match. */
  lemma ProbeDisplay(e: Endpoint)
    requires NoQuote(e.user) && NoQuote(e.host)
    ensures MatchablePassword(e.pswd) ==> Redact(ProbeCommand(e)) == ProbeCommand(e.(pswd := Mask))
    ensures NoQuote(e.pswd) && !MatchablePassword(e.pswd) ==> Redact(ProbeCommand(e)) == ProbeCommand(e)
  {
    var words := ProbeWords(e);
    ProbeOthersShown(e);
    ProbeMasked(e);
    OnlyPasswordShown(LoadTool, words, 1, e.pswd);
  }

  lemma ProbeMasked(e: Endpoint)
    ensures ProbeWords(e.(pswd := Mask)) == ProbeWords(e)[1 := PasswordWord(Mask)]
  {
  }

  lemma ProbeOthersShown(e: Endpoint)
    requires NoQuote(e.user) && NoQuote(e.host)
    ensures forall j :: 0 <= j < |ProbeWords(e)| && j != 1 ==> Redact(ProbeWords(e)[j]) == ProbeWords(e)[j]
  {
    var words := ProbeWords(e);
    ProbeQueryShown();
    forall j | 0 <= j < |words| && j != 1 ensures Redact(words[j]) == words[j] {
      if j != 4 && j != 5 {
        ProbeWordQuoteFree(e, j);
        assert Redact(words[j]) == words[j];
      }
    }
  }

  /** The probe's words other than the password and the two pieces of the quoted query
      text hold no quote. */
  lemma ProbeWordQuoteFree(e: Endpoint, j: nat)
    requires NoQuote(e.user) && NoQuote(e.host)
    requires j < 8 && j != 1 && j != 4 && j != 5
    ensures NoQuote(ProbeWords(e)[j])
  {
  }

  /** The single quotes in the probe's query text stand where no match can start. */
  lemma ProbeQueryShown()
    ensures Redact("'Connected") == "'Connected"
    ensures Redact("successfully'\"") == "successfully'\""
  {
    QuoteSafeUnchanged("'Connected");
    QuoteSafeUnchanged("successfully'\"");
  }
}
