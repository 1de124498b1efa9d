/** One run of the copy script, from the parsed arguments to the operator's final decision.
    Everything the script reads from the terminal or from the servers is a parameter. */
module DataCopy {
  import opened Wrappers
  import opened Text
  import opened Redaction
  import opened Console
  import opened Schemas
  import opened Commands
  import opened Invocation

  /** What a run produces: the prompts shown, the commands built, what is displayed of them,
      and whether the piped copy is started. */
  datatype Outcome = Outcome(
    asked: seq<Field>,
    sourceProbe: string, targetProbe: string,
    exclusion: Option<string>,
    dump: string, load: string,
    shownDump: string, shownLoad: string,
    copyStarted: bool)

  /** The rendered output of the catalog query: `communicate()` gives the standard output
      and `None` for the unpiped standard error, and both are appended as text. */
  function CatalogItems(catalogOutput: string): (items: seq<string>) {
    [catalogOutput, "None"]
  }

  /** The script, top to bottom. `catalogOutput` is `str()` of the catalog query's standard
      output; `dbAnswer` and `infoAnswer` are the answers to the two suppression prompts
      (unused when the matching keep-flag is set); `finalAnswer` is the answer at the review. */
  method Run(args: Arguments, replies: Replies, catalogOutput: string,
             dbAnswer: string, infoAnswer: string, finalAnswer: string) returns (r: Outcome)
    modifies args
    ensures r.asked == Prompted(old(args.srcHost), old(args.srcUser), old(args.srcPswd),
                                old(args.trgHost), old(args.trgUser), old(args.trgPswd))
    ensures r.sourceProbe == ProbeCommand(args.Source())
    ensures r.targetProbe == ProbeCommand(args.Target())
    ensures r.exclusion == if Missing(old(args.databases)) then None
                           else Some("'" + LastPiece(old(args.databases).value, ' ') + "',")
    ensures args.databases == Some(catalogOutput + "None")
    ensures r.dump == DumpCommand(args.Source(), args.createDb, dbAnswer, args.createInfo, infoAnswer,
                                  catalogOutput + "None")
    ensures r.load == LoadCommand(args.Target(), args.srcPort)
    ensures r.shownDump == Redact(r.dump) && r.shownLoad == Redact(r.load)
    ensures r.copyStarted <==> Affirmative(finalAnswer)
    ensures args.Source() == Endpoint(Fallback(old(args.srcHost), replies.srcHost), old(args.srcPort),
                                      Fallback(old(args.srcUser), replies.srcUser),
                                      Fallback(old(args.srcPswd), replies.srcPswd))
    ensures args.Target() == Endpoint(Fallback(old(args.trgHost), replies.trgHost), old(args.trgPort),
                                      Fallback(old(args.trgUser), replies.trgUser),
                                      Fallback(old(args.trgPswd), replies.trgPswd))
    ensures args.createDb == old(args.createDb) && args.createInfo == old(args.createInfo)
  {
    var asked := args.ResolveCredentials(replies);

    var sourceProbe := ProbeCommand(args.Source());
    var targetProbe := ProbeCommand(args.Target());

    var exclusion: Option<string> := None;
    if !Missing(args.databases) {
      var schemasSql := ExclusionList(args.databases.value);
      exclusion := Some(schemasSql);
    }

    args.ReplaceDatabases(CatalogItems(catalogOutput));
    assert Concat(CatalogItems(catalogOutput)) == catalogOutput + "None" by {
      var items := CatalogItems(catalogOutput);
      assert items[..|items| - 1] == [catalogOutput];
      assert [catalogOutput][..0] == [];
      assert Concat([catalogOutput]) == catalogOutput;
    }

    var dump := BuildDumpCommand(args.Source(), args.createDb, dbAnswer, args.createInfo, infoAnswer,
                                 args.databases.value);
    var load := BuildLoadCommand(args.Target(), args.srcPort);

    var copyStarted := Affirmative(finalAnswer);
    r := Outcome(asked, sourceProbe, targetProbe, exclusion, dump, load, Redact(dump), Redact(load),
                 copyStarted);
  }

  /** The catalog output always ends in `None`, so in a run the schema list is never empty and
      the dump never selects every database: the `--all-databases` branch cannot be taken. */
  lemma AllDatabasesUnreachable(src: Endpoint, createDb: bool, dbAnswer: string, createInfo: bool,
                                infoAnswer: string, catalogOutput: string)
    ensures AllDatabases !in DumpWords(src, createDb, dbAnswer, createInfo, infoAnswer, catalogOutput + "None")
    ensures DatabasesHead + CleanSchemaList(catalogOutput + "None")
            in DumpWords(src, createDb, dbAnswer, createInfo, infoAnswer, catalogOutput + "None")
  {
    assert |catalogOutput + "None"| >= 4;
    DumpSchemaSelection(src, createDb, dbAnswer, createInfo, infoAnswer, catalogOutput + "None");
  }
}
