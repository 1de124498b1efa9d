/** Schema selection: the quoted list built from an explicit `--databases` value, and the
    clean-up that turns the catalog query's rendered output into the dump's schema list. */
module Schemas {
  import opened Text

  /** The loop over `str(args.databases).split(' ')`: every pass first resets the
      accumulator and then appends `'<item>',`, so only the last space-separated item
      survives. The `rstrip()` whose result is discarded changes nothing. */
  method ExclusionList(databases: string) returns (schemasSql: string)
    ensures schemasSql == "'" + LastPiece(databases, ' ') + "',"
    ensures ' ' !in schemasSql
    ensures EndsWith(databases, LastPiece(databases, ' '))
  {
    var items := Split(databases, ' ');
    schemasSql := "";
    for i := 0 to |items|
      invariant i > 0 ==> schemasSql == "'" + items[i - 1] + "',"
    {
      schemasSql := "";
      schemasSql := schemasSql + "'" + items[i] + "',";
    }
    LastPieceIsTail(databases, ' ');
  }

  /** The chained replaces applied to `args.databases` before it goes after `--databases `:
      commas become spaces, the two characters `\n` become a space, and `b'` and `'None`
      are deleted. The result holds no comma: commas go first, and the later steps only
      insert comma-free text. */
  function CleanSchemaList(raw: string): (list: string)
    ensures ',' !in list
  {
    var spaced := ReplaceAll(raw, ",", " ");
    var joined := ReplaceAll(spaced, "\\n", " ");
    var unprefixed := ReplaceAll(joined, "b'", "");
    ReplaceCharRemoves(raw, ',', " ");
    ReplaceAllChars(spaced, "\\n", " ", ',');
    ReplaceAllChars(joined, "b'", "", ',');
    ReplaceAllChars(unprefixed, "'None", "", ',');
    ReplaceAll(unprefixed, "'None", "")
  }
}
