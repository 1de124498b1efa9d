/** The command lines the script builds: the connectivity probe, the dump and the load.
    A command is a tool name followed by its words, each added as `' ' + word`; the
    word lists below say which words appear and in which order. */
module Commands {
  import opened Text
  import opened Redaction
  import opened Schemas
  import opened Console

  /** A port as argparse leaves it: the int 3306 when the option is absent, the typed text
      when it is given. */
  datatype Port = DefaultPort | GivenPort(text: string)

  /** `port != 3306`: the int default equals 3306; typed text never equals an int, not even "3306". */
  predicate NonDefault(p: Port) {
    p.GivenPort?
  }

  /** `str(port)`. */
  function PortText(p: Port): (text: string) {
    match p
    case DefaultPort => "3306"
    case GivenPort(t) => t
  }

  /** One server's resolved connection parameters. */
  datatype Endpoint = Endpoint(host: string, port: Port, user: string, pswd: string)

  const DumpTool: string := "mysqldump"
  const LoadTool: string := "mysql"
  const ColumnStatistics: string := "--column-statistics=0"
  const NoCreateDb: string := "--no-create-db"
  const NoCreateInfo: string := "--no-create-info"
  const AllDatabases: string := "--all-databases"
  const DatabasesHead: string := "--databases "
  const PortHead: string := "--port="

  function UserWord(user: string): (word: string) {
    "--user='" + user + "'"
  }

  /** The dump's host word: unquoted. */
  function HostWord(host: string): (word: string) {
    "--host=" + host
  }

  /** The load's host word: quoted. */
  function QuotedHostWord(host: string): (word: string) {
    "--host='" + host + "'"
  }

  function PortWord(p: Port): (word: string) {
    PortHead + PortText(p)
  }

  /** Schema selection: every database when the list is empty, else the cleaned list. */
  function SchemaWord(databases: string): (word: string) {
    if databases == "" then AllDatabases else DatabasesHead + CleanSchemaList(databases)
  }

  /** The dump's words. Each suppression flag is added only when its keep-flag is absent and
      the operator answers exactly `Y` or `y`; the port only when it is not the default. */
  function DumpWords(src: Endpoint, createDb: bool, dbAnswer: string, createInfo: bool,
                     infoAnswer: string, databases: string): (words: seq<string>)
    ensures 5 <= |words| <= 8
    ensures words[2] == PasswordWord(src.pswd) && words[|words| - 1] == HostWord(src.host)
  {
    [ColumnStatistics, UserWord(src.user), PasswordWord(src.pswd)]
    + (if !createDb && Affirmative(dbAnswer) then [NoCreateDb] else [])
    + (if !createInfo && Affirmative(infoAnswer) then [NoCreateInfo] else [])
    + [SchemaWord(databases)]
    + (if NonDefault(src.port) then [PortWord(src.port)] else [])
    + [HostWord(src.host)]
  }

  function DumpCommand(src: Endpoint, createDb: bool, dbAnswer: string, createInfo: bool,
                       infoAnswer: string, databases: string): (cmd: string)
  {
    Render(DumpTool, DumpWords(src, createDb, dbAnswer, createInfo, infoAnswer, databases))
  }

  /** The dump command grown by successive `+=`. The two answers are what the operator types
      at the two suppression prompts; a prompt is only shown when its keep-flag is absent. */
  method BuildDumpCommand(src: Endpoint, createDb: bool, dbAnswer: string, createInfo: bool,
                          infoAnswer: string, databases: string) returns (cmd: string)
    ensures cmd == DumpCommand(src, createDb, dbAnswer, createInfo, infoAnswer, databases)
  {
    ghost var words: seq<string> := [];
    cmd := DumpTool;
    cmd, words := Append(DumpTool, cmd, words, ColumnStatistics, true);
    cmd, words := Append(DumpTool, cmd, words, UserWord(src.user), true);
    cmd, words := Append(DumpTool, cmd, words, PasswordWord(src.pswd), true);
    assert words == [ColumnStatistics, UserWord(src.user), PasswordWord(src.pswd)];
    cmd, words := Append(DumpTool, cmd, words, NoCreateDb, !createDb && Affirmative(dbAnswer));
    cmd, words := Append(DumpTool, cmd, words, NoCreateInfo, !createInfo && Affirmative(infoAnswer));
    var selection := if databases == "" then AllDatabases else DatabasesHead + CleanSchemaList(databases);
    cmd, words := Append(DumpTool, cmd, words, selection, true);
    cmd, words := Append(DumpTool, cmd, words, PortHead + PortText(src.port), NonDefault(src.port));
    cmd, words := Append(DumpTool, cmd, words, HostWord(src.host), true);
  }

  /** One `if when: cmd += ' ' + word` step, with the words added so far. */
  method Append(ghost tool: string, cmd: string, ghost words: seq<string>, word: string, when: bool)
    returns (cmd': string, ghost words': seq<string>)
    requires cmd == Render(tool, words)
    ensures words' == words + (if when then [word] else [])
    ensures cmd' == Render(tool, words')
  {
    if when {
      cmd' := cmd + " " + word;
      words' := words + [word];
      RenderAppend(tool, words, word);
    } else {
      cmd', words' := cmd, words;
      assert words + [] == words;
    }
  }

  /** The load's words. The port word is added when the TARGET port is not the default, but
      it carries the SOURCE port's value. */
  function LoadWords(trg: Endpoint, srcPort: Port): (words: seq<string>)
    ensures |words| == if NonDefault(trg.port) then 4 else 3
    ensures words[1] == PasswordWord(trg.pswd)
  {
    [UserWord(trg.user), PasswordWord(trg.pswd), QuotedHostWord(trg.host)]
    + (if NonDefault(trg.port) then [PortWord(srcPort)] else [])
  }

  /** The load command is the script's own concatenation. */
  function LoadCommand(trg: Endpoint, srcPort: Port): (cmd: string)
    ensures cmd == "mysql --user='" + trg.user + "' --password='" + trg.pswd + "' --host='" + trg.host + "'"
                   + (if NonDefault(trg.port) then " --port=" + PortText(srcPort) else "")
  {
    LoadRendering(trg, srcPort);
    Render(LoadTool, LoadWords(trg, srcPort))
  }

  lemma LoadRendering(trg: Endpoint, srcPort: Port)
    ensures Render(LoadTool, LoadWords(trg, srcPort))
         == "mysql --user='" + trg.user + "' --password='" + trg.pswd + "' --host='" + trg.host + "'"
            + (if NonDefault(trg.port) then " --port=" + PortText(srcPort) else "")
  {
    var w := LoadWords(trg, srcPort);
    var base := [UserWord(trg.user), PasswordWord(trg.pswd), QuotedHostWord(trg.host)];
    RenderAppend(LoadTool, [], base[0]);
    RenderAppend(LoadTool, [base[0]], base[1]);
    RenderAppend(LoadTool, [base[0], base[1]], base[2]);
    assert [] + [base[0]] == [base[0]] && [base[0]] + [base[1]] == [base[0], base[1]];
    assert [base[0], base[1]] + [base[2]] == base;
    LoadText(trg.user, trg.pswd, trg.host, PortText(srcPort));
    if NonDefault(trg.port) {
      RenderAppend(LoadTool, base, PortWord(srcPort));
      assert w == base + [PortWord(srcPort)];
    } else {
      assert w == base;
    }
  }
  /** The load's words joined by spaces regroup into the script's literal pieces. */
  lemma LoadText(u: string, p: string, h: string, port: string)
    ensures "mysql" + " " + UserWord(u) + " " + PasswordWord(p) + " " + QuotedHostWord(h)
         == "mysql --user='" + u + "' --password='" + p + "' --host='" + h + "'"
    ensures " " + PortWord(GivenPort(port)) == " --port=" + port
  {
    var a1 := "mysql" + " " + UserWord(u);
    assert a1 == "mysql --user='" + u + "'" by {
      assert "mysql" + " " + "--user='" == "mysql --user='";
    }
    var pre := "mysql --user='" + u + "' --password='" + p;
    assert a1 + " " + PasswordWord(p) == pre + "'" by {
      assert "'" + " " + "--password='" == "' --password='";
    }
    assert pre + "'" + " " + QuotedHostWord(h) == pre + "' --host='" + h + "'" by {
      assert "'" + " " + "--host='" == "' --host='";
    }
    assert " " + PortHead == " --port=";
  }


  /** The load command grown by successive `+=`. */
  method BuildLoadCommand(trg: Endpoint, srcPort: Port) returns (cmd: string)
    ensures cmd == LoadCommand(trg, srcPort)
  {
    ghost var words: seq<string> := [];
    cmd := LoadTool;
    cmd, words := Append(LoadTool, cmd, words, UserWord(trg.user), true);
    cmd, words := Append(LoadTool, cmd, words, PasswordWord(trg.pswd), true);
    cmd, words := Append(LoadTool, cmd, words, QuotedHostWord(trg.host), true);
    assert words == [UserWord(trg.user), PasswordWord(trg.pswd), QuotedHostWord(trg.host)];
    cmd, words := Append(LoadTool, cmd, words, PortHead + PortText(srcPort), NonDefault(trg.port));
    assert words == LoadWords(trg, srcPort);
  }

  /** The words of the connectivity probe for one server. The probe is one concatenation in
      which words are separated by single spaces; its quoted query text is cut at its
      spaces here too, which leaves the rendered string the same. */
  function ProbeWords(e: Endpoint): (words: seq<string>)
    ensures |words| == 8 && words[1] == PasswordWord(e.pswd)
  {
    ["--user=\"" + e.user + "\"", PasswordWord(e.pswd), "--host=\"" + e.host + "\"",
     "--execute=\"SELECT", "'Connected", "successfully'\"", "--batch", "--silent"]
  }

  /** The probe command is the script's own concatenation. */
  function ProbeCommand(e: Endpoint): (cmd: string)
    ensures cmd == "mysql --user=\"" + e.user + "\" --password='" + e.pswd + "' --host=\"" + e.host
                   + "\" --execute=\"SELECT 'Connected successfully'\" --batch --silent"
  {
    ProbeRendering(e);
    Render(LoadTool, ProbeWords(e))
  }

  lemma ProbeRendering(e: Endpoint)
    ensures Render(LoadTool, ProbeWords(e))
         == "mysql --user=\"" + e.user + "\" --password='" + e.pswd + "' --host=\"" + e.host
            + "\" --execute=\"SELECT 'Connected successfully'\" --batch --silent"
  {
    var w := ProbeWords(e);
    forall k | 0 <= k < 8
      ensures Render(LoadTool, w[..k + 1]) == Render(LoadTool, w[..k]) + " " + w[k]
    {
      assert w[..k + 1] == w[..k] + [w[k]];
      RenderAppend(LoadTool, w[..k], w[k]);
    }
    assert w[..0] == [] && w[..8] == w;
    assert Render(LoadTool, w) == LoadTool + " " + w[0] + " " + w[1] + " " + w[2] + " " + w[3]
                                  + " " + w[4] + " " + w[5] + " " + w[6] + " " + w[7];
    ProbeText(e.user, e.pswd, e.host);
  }
  /** The probe's words joined by spaces regroup into the script's literal pieces. */
  lemma ProbeText(u: string, p: string, h: string)
    ensures "mysql" + " " + ("--user=\"" + u + "\"") + " " + ("--password='" + p + "'") + " " + ("--host=\"" + h + "\"")
            + " " + "--execute=\"SELECT" + " " + "'Connected" + " " + "successfully'\"" + " " + "--batch" + " " + "--silent"
         == "mysql --user=\"" + u + "\" --password='" + p + "' --host=\"" + h
            + "\" --execute=\"SELECT 'Connected successfully'\" --batch --silent"
  {
    ProbeHead(u, p, h);
    ProbeTail("mysql --user=\"" + u + "\" --password='" + p + "' --host=\"" + h);
  }

  /** The probe's user, password and host words, after the tool, as one piece of text. */
  lemma ProbeHead(u: string, p: string, h: string)
    ensures "mysql" + " " + ("--user=\"" + u + "\"") + " " + ("--password='" + p + "'") + " " + ("--host=\"" + h + "\"")
         == "mysql --user=\"" + u + "\" --password='" + p + "' --host=\"" + h + "\""
  {
    var a1 := "mysql" + " " + ("--user=\"" + u + "\"");
    assert a1 == "mysql --user=\"" + u + "\"" by {
      assert "mysql" + " " + "--user=\"" == "mysql --user=\"";
    }
    var a2 := a1 + " " + ("--password='" + p + "'");
    assert a2 == "mysql --user=\"" + u + "\" --password='" + p + "'" by {
      assert "\"" + " " + "--password='" == "\" --password='";
    }
    assert "'" + " " + "--host=\"" == "' --host=\"";
  }

  /** The probe's query and flags, after the host, as one piece of text. */
  lemma ProbeTail(pre: string)
    ensures pre + "\"" + " " + "--execute=\"SELECT" + " " + "'Connected" + " " + "successfully'\"" + " " + "--batch" + " " + "--silent"
         == pre + "\" --execute=\"SELECT 'Connected successfully'\" --batch --silent"
  {
    RegroupStep(pre, "\"", "--execute=\"SELECT", "\" --execute=\"SELECT");
    RegroupStep(pre, "\" --execute=\"SELECT", "'Connected", "\" --execute=\"SELECT 'Connected");
    RegroupStep(pre, "\" --execute=\"SELECT 'Connected", "successfully'\"",
                "\" --execute=\"SELECT 'Connected successfully'\"");
    RegroupStep(pre, "\" --execute=\"SELECT 'Connected successfully'\"", "--batch",
                "\" --execute=\"SELECT 'Connected successfully'\" --batch");
    RegroupStep(pre, "\" --execute=\"SELECT 'Connected successfully'\" --batch", "--silent",
                "\" --execute=\"SELECT 'Connected successfully'\" --batch --silent");
  }

  /** Where each dump word sits: three fixed words, the suppression flags that apply, the
      schema selection, the port when it is not the default, and the host last. */
  lemma DumpLayout(src: Endpoint, createDb: bool, dbAnswer: string, createInfo: bool,
                   infoAnswer: string, databases: string)
    ensures var words := DumpWords(src, createDb, dbAnswer, createInfo, infoAnswer, databases);
      var d := if !createDb && Affirmative(dbAnswer) then 1 else 0;
      var i := if !createInfo && Affirmative(infoAnswer) then 1 else 0;
      var s := 3 + d + i;
      && |words| == s + 2 + (if NonDefault(src.port) then 1 else 0)
      && words[0] == ColumnStatistics && words[1] == UserWord(src.user)
      && words[2] == PasswordWord(src.pswd)
      && (d == 1 ==> words[3] == NoCreateDb)
      && (i == 1 ==> words[3 + d] == NoCreateInfo)
      && words[s] == SchemaWord(databases)
      && (NonDefault(src.port) ==> words[s + 1] == PortWord(src.port))
      && words[|words| - 1] == HostWord(src.host)
  {
  }

  /** The first four characters of each dump word name its kind. */
  lemma WordHeads(src: Endpoint, databases: string)
    ensures ColumnStatistics[..4] == "--co" && UserWord(src.user)[..4] == "--us"
    ensures PasswordWord(src.pswd)[..4] == "--pa" && NoCreateDb[..4] == "--no"
    ensures NoCreateInfo[..4] == "--no" && AllDatabases[..4] == "--al"
    ensures SchemaWord(databases)[..4] == (if databases == "" then "--al" else "--da")
    ensures PortWord(src.port)[..4] == "--po" && HostWord(src.host)[..4] == "--ho"
    ensures QuotedHostWord(src.host)[..4] == "--ho"
  {
    assert UserWord(src.user) == "--user='" + (src.user + "'");
    assert PasswordWord(src.pswd) == "--password='" + (src.pswd + "'");
    assert QuotedHostWord(src.host) == "--host='" + (src.host + "'");
  }

  /** The dump begins with the tool, the column-statistics flag and the quoted credentials,
      and ends with the host. */
  lemma DumpCommandFrame(src: Endpoint, createDb: bool, dbAnswer: string, createInfo: bool,
                         infoAnswer: string, databases: string)
    ensures StartsWith(DumpCommand(src, createDb, dbAnswer, createInfo, infoAnswer, databases),
                       DumpTool + " " + ColumnStatistics + " " + UserWord(src.user)
                       + " " + PasswordWord(src.pswd))
    ensures EndsWith(DumpCommand(src, createDb, dbAnswer, createInfo, infoAnswer, databases),
                     " " + HostWord(src.host))
  {
    var words := DumpWords(src, createDb, dbAnswer, createInfo, infoAnswer, databases);
    DumpLayout(src, createDb, dbAnswer, createInfo, infoAnswer, databases);
    RenderPrefix(DumpTool, words, 3);
    var w := words[..3];
    RenderAppend(DumpTool, [], w[0]);
    RenderAppend(DumpTool, [w[0]], w[1]);
    RenderAppend(DumpTool, [w[0], w[1]], w[2]);
    assert [] + [w[0]] == [w[0]] && [w[0]] + [w[1]] == [w[0], w[1]] && [w[0], w[1]] + [w[2]] == w;
    RenderLast(DumpTool, words);
  }

  /** `--no-create-db` is present exactly when `--create-db` is absent and the operator answers
      `Y` or `y`; likewise `--no-create-info`; when both are present the first comes first. */
  lemma DumpSuppression(src: Endpoint, createDb: bool, dbAnswer: string, createInfo: bool,
                        infoAnswer: string, databases: string)
    ensures var words := DumpWords(src, createDb, dbAnswer, createInfo, infoAnswer, databases);
      && (NoCreateDb in words <==> !createDb && Affirmative(dbAnswer))
      && (NoCreateInfo in words <==> !createInfo && Affirmative(infoAnswer))
      && (forall i, j ::
            (0 <= i < |words| && 0 <= j < |words| && words[i] == NoCreateDb && words[j] == NoCreateInfo)
            ==> i < j)
  {
    var words := DumpWords(src, createDb, dbAnswer, createInfo, infoAnswer, databases);
    var d := if !createDb && Affirmative(dbAnswer) then 1 else 0;
    var i := if !createInfo && Affirmative(infoAnswer) then 1 else 0;
    DumpLayout(src, createDb, dbAnswer, createInfo, infoAnswer, databases);
    WordHeads(src, databases);
    forall k | 0 <= k < |words|
      ensures words[k] == NoCreateDb ==> k == 3 && d == 1
      ensures words[k] == NoCreateInfo ==> k == 3 + d && i == 1
    {
      if k >= 3 && k < 3 + d + i {
        // a suppression flag
      } else {
        assert words[k][..4] != "--no";
      }
    }
  }

  /** Exactly one schema-selection word: `--all-databases` when the list is empty, otherwise
      one word starting `--databases ` whose list holds no comma. */
  lemma DumpSchemaSelection(src: Endpoint, createDb: bool, dbAnswer: string, createInfo: bool,
                            infoAnswer: string, databases: string)
    ensures var words := DumpWords(src, createDb, dbAnswer, createInfo, infoAnswer, databases);
      && (AllDatabases in words <==> databases == "")
      && (databases != "" ==> DatabasesHead + CleanSchemaList(databases) in words)
      && (forall k, l :: 0 <= k < |words| && 0 <= l < |words| && Selects(words[k]) && Selects(words[l]) ==> k == l)
      && ',' !in CleanSchemaList(databases)
  {
    var words := DumpWords(src, createDb, dbAnswer, createInfo, infoAnswer, databases);
    var s := SelectionIndex(src, createDb, dbAnswer, createInfo, infoAnswer, databases);
    WordHeads(src, databases);
  }

  /** The schema-selection word sits at one index, and no other word selects schemas. */
  lemma SelectionIndex(src: Endpoint, createDb: bool, dbAnswer: string, createInfo: bool,
                       infoAnswer: string, databases: string) returns (s: nat)
    ensures var words := DumpWords(src, createDb, dbAnswer, createInfo, infoAnswer, databases);
      && s < |words| && words[s] == SchemaWord(databases)
      && (forall k :: 0 <= k < |words| && k != s ==> !Selects(words[k]))
  {
    var words := DumpWords(src, createDb, dbAnswer, createInfo, infoAnswer, databases);
    var d := if !createDb && Affirmative(dbAnswer) then 1 else 0;
    var i := if !createInfo && Affirmative(infoAnswer) then 1 else 0;
    s := 3 + d + i;
    DumpLayout(src, createDb, dbAnswer, createInfo, infoAnswer, databases);
    WordHeads(src, databases);
    forall k | 0 <= k < |words| && k != s
      ensures !Selects(words[k])
    {
      assert words[k][..4] != "--al" && words[k][..4] != "--da";
      if |words[k]| >= |DatabasesHead| {
        assert words[k][..|DatabasesHead|][..4] == words[k][..4];
      }
    }
  }

  /** A schema-selection word: `--all-databases`, or one starting `--databases `. */
  predicate Selects(word: string) {
    word == AllDatabases || StartsWith(word, DatabasesHead)
  }

  /** A port word is added exactly when the source port is not the default, just before the
      host. A port typed as `3306` is not the default: argparse keeps it as text. */
  lemma DumpPort(src: Endpoint, createDb: bool, dbAnswer: string, createInfo: bool,
                 infoAnswer: string, databases: string)
    ensures var words := DumpWords(src, createDb, dbAnswer, createInfo, infoAnswer, databases);
      && ((exists k :: 0 <= k < |words| && StartsWith(words[k], PortHead)) <==> NonDefault(src.port))
      && (NonDefault(src.port) ==>
            words[|words| - 2] == PortHead + PortText(src.port) && words[|words| - 1] == HostWord(src.host))
    ensures NonDefault(GivenPort("3306")) && PortWord(GivenPort("3306")) == "--port=3306"
  {
    var words := DumpWords(src, createDb, dbAnswer, createInfo, infoAnswer, databases);
    var d := if !createDb && Affirmative(dbAnswer) then 1 else 0;
    var i := if !createInfo && Affirmative(infoAnswer) then 1 else 0;
    var p := 4 + d + i;
    DumpLayout(src, createDb, dbAnswer, createInfo, infoAnswer, databases);
    WordHeads(src, databases);
    forall k | 0 <= k < |words| && !(NonDefault(src.port) && k == p)
      ensures !StartsWith(words[k], PortHead)
    {
      assert words[k][..4] != "--po";
      if |words[k]| >= |PortHead| {
        assert words[k][..|PortHead|][..4] == words[k][..4];
      }
    }
    if NonDefault(src.port) {
      assert StartsWith(words[p], PortHead);
    }
  }

  /** The load's words: quoted user, password and host, then a port word exactly when the
      target port is not the default, carrying the source port's value. */
  lemma LoadLayout(trg: Endpoint, srcPort: Port)
    ensures var words := LoadWords(trg, srcPort);
      && |words| == 3 + (if NonDefault(trg.port) then 1 else 0)
      && words[..3] == [UserWord(trg.user), PasswordWord(trg.pswd), QuotedHostWord(trg.host)]
      && (NonDefault(trg.port) ==> words[3] == PortHead + PortText(srcPort))
  {
  }

  /** The value of the target port never reaches the load command; only whether it was given. */
  lemma LoadIgnoresTargetPortValue(trg: Endpoint, srcPort: Port, x: string, y: string)
    ensures LoadCommand(trg.(port := GivenPort(x)), srcPort) == LoadCommand(trg.(port := GivenPort(y)), srcPort)
    ensures LoadCommand(trg.(port := GivenPort(x)), srcPort)
         == LoadCommand(trg.(port := DefaultPort), srcPort) + " " + PortWord(srcPort)
  {
    var base := LoadWords(trg.(port := DefaultPort), srcPort);
    assert LoadWords(trg.(port := GivenPort(x)), srcPort) == base + [PortWord(srcPort)];
    RenderAppend(LoadTool, base, PortWord(srcPort));
  }
}
