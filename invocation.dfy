/** The parsed command line, and the changes the script makes to it in place: credentials
    asked for when missing, and the schema list overwritten by the catalog query's output. */
module Invocation {
  import opened Wrappers
  import opened Text
  import opened Console
  import opened Commands

  /** The six connection settings the script asks for when they are missing. */
  datatype Field = SrcHost | SrcUser | SrcPswd | TrgHost | TrgUser | TrgPswd

  /** What the operator would type at each of the six prompts. */
  datatype Replies = Replies(srcHost: string, srcUser: string, srcPswd: string,
                             trgHost: string, trgUser: string, trgPswd: string)

  /** Python's `str()` of an optional text attribute. */
  function Str(value: Option<string>): (text: string) {
    match value
    case None => "None"
    case Some(s) => s
  }

  /** The fields whose prompt is shown, in the order the script checks them. */
  function Prompted(srcHost: Option<string>, srcUser: Option<string>, srcPswd: Option<string>,
                    trgHost: Option<string>, trgUser: Option<string>, trgPswd: Option<string>): (fields: seq<Field>)
    ensures SrcHost in fields <==> Missing(srcHost)
    ensures SrcUser in fields <==> Missing(srcUser)
    ensures SrcPswd in fields <==> Missing(srcPswd)
    ensures TrgHost in fields <==> Missing(trgHost)
    ensures TrgUser in fields <==> Missing(trgUser)
    ensures TrgPswd in fields <==> Missing(trgPswd)
    ensures Ascending(fields)
  {
    Prompts(Missing(srcHost), Missing(srcUser), Missing(srcPswd),
            Missing(trgHost), Missing(trgUser), Missing(trgPswd))
  }

  /** The six checks in order, each adding its prompt when its setting is missing. */
  function Prompts(m1: bool, m2: bool, m3: bool, m4: bool, m5: bool, m6: bool): (fields: seq<Field>)
    ensures SrcHost in fields <==> m1
    ensures SrcUser in fields <==> m2
    ensures SrcPswd in fields <==> m3
    ensures TrgHost in fields <==> m4
    ensures TrgUser in fields <==> m5
    ensures TrgPswd in fields <==> m6
    ensures Ascending(fields)
  {
    PromptsInOrder(m1, m2, m3, m4, m5, m6);
    PromptsMissing(m1, m2, m3, m4, m5, m6);
    Ask(SrcHost, m1) + Ask(SrcUser, m2) + Ask(SrcPswd, m3) +
    Ask(TrgHost, m4) + Ask(TrgUser, m5) + Ask(TrgPswd, m6)
  }

  /** The six checks, one at a time, keep the prompts in order. */
  lemma PromptsInOrder(m1: bool, m2: bool, m3: bool, m4: bool, m5: bool, m6: bool)
    ensures Ascending(Ask(SrcHost, m1) + Ask(SrcUser, m2) + Ask(SrcPswd, m3) + Ask(TrgHost, m4) + Ask(TrgUser, m5) + Ask(TrgPswd, m6))
  {
    var f1 := Ask(SrcHost, m1);
    AskAfter([], SrcHost, m1);
    assert [] + f1 == f1;
    var f2 := f1 + Ask(SrcUser, m2);
    AskAfter(f1, SrcUser, m2);
    var f3 := f2 + Ask(SrcPswd, m3);
    AskAfter(f2, SrcPswd, m3);
    var f4 := f3 + Ask(TrgHost, m4);
    AskAfter(f3, TrgHost, m4);
    var f5 := f4 + Ask(TrgUser, m5);
    AskAfter(f4, TrgUser, m5);
    var f6 := f5 + Ask(TrgPswd, m6);
    AskAfter(f5, TrgPswd, m6);
  }

  /** A setting's prompt is among the six checks' prompts exactly when it is missing. */
  lemma PromptsMissing(m1: bool, m2: bool, m3: bool, m4: bool, m5: bool, m6: bool)
    ensures var fields := Ask(SrcHost, m1) + Ask(SrcUser, m2) + Ask(SrcPswd, m3) + Ask(TrgHost, m4) + Ask(TrgUser, m5) + Ask(TrgPswd, m6);
      (SrcHost in fields <==> m1) && (SrcUser in fields <==> m2) && (SrcPswd in fields <==> m3) &&
      (TrgHost in fields <==> m4) && (TrgUser in fields <==> m5) && (TrgPswd in fields <==> m6)
  {
    var f1 := Ask(SrcHost, m1);
    var f2 := f1 + Ask(SrcUser, m2);
    AskAdds(f1, SrcUser, m2);
    var f3 := f2 + Ask(SrcPswd, m3);
    AskAdds(f2, SrcPswd, m3);
    var f4 := f3 + Ask(TrgHost, m4);
    AskAdds(f3, TrgHost, m4);
    var f5 := f4 + Ask(TrgUser, m5);
    AskAdds(f4, TrgUser, m5);
    var f6 := f5 + Ask(TrgPswd, m6);
    AskAdds(f5, TrgPswd, m6);
  }

  /** Each setting appears at most once, in the order the script checks them. */
  predicate Ascending(fields: seq<Field>) {
    forall i, j :: 0 <= i < j < |fields| ==> Rank(fields[i]) < Rank(fields[j])
  }

  /** Every prompt in `fields` belongs to a check before position `bound`. */
  predicate RanksBelow(fields: seq<Field>, bound: nat) {
    forall k :: 0 <= k < |fields| ==> Rank(fields[k]) < bound
  }

  /** One more check after the earlier ones keeps the prompts in order. */
  lemma AskAfter(before: seq<Field>, field: Field, missing: bool)
    requires Ascending(before) && RanksBelow(before, Rank(field))
    ensures Ascending(before + Ask(field, missing)) && RanksBelow(before + Ask(field, missing), Rank(field) + 1)
  {
  }

  /** One more check adds its own prompt when its setting is missing, and no other. */
  lemma AskAdds(before: seq<Field>, field: Field, missing: bool)
    ensures forall f :: f in before + Ask(field, missing) <==> f in before || (f == field && missing)
  {
  }

  /** The position of a setting's check in the script. */
  function Rank(field: Field): (n: nat)
    ensures n < 6
  {
    match field
    case SrcHost => 0
    case SrcUser => 1
    case SrcPswd => 2
    case TrgHost => 3
    case TrgUser => 4
    case TrgPswd => 5
  }

  /** The prompt for one setting is shown exactly when the setting is missing. */
  function Ask(field: Field, missing: bool): (fields: seq<Field>) {
    if missing then [field] else []
  }

  /** The attributes argparse produces. A port is the default until given; `databases` is
      absent until given; the two keep-flags are false unless given. */
  class Arguments {
    var srcHost: Option<string>
    var srcPort: Port
    var srcUser: Option<string>
    var srcPswd: Option<string>
    var trgHost: Option<string>
    var trgPort: Port
    var trgUser: Option<string>
    var trgPswd: Option<string>
    var databases: Option<string>
    var createDb: bool
    var createInfo: bool

    constructor (srcHost: Option<string>, srcPort: Port, srcUser: Option<string>, srcPswd: Option<string>,
                 trgHost: Option<string>, trgPort: Port, trgUser: Option<string>, trgPswd: Option<string>,
                 databases: Option<string>, createDb: bool, createInfo: bool)
      ensures this.srcHost == srcHost && this.srcPort == srcPort
      ensures this.srcUser == srcUser && this.srcPswd == srcPswd
      ensures this.trgHost == trgHost && this.trgPort == trgPort
      ensures this.trgUser == trgUser && this.trgPswd == trgPswd
      ensures this.databases == databases
      ensures this.createDb == createDb && this.createInfo == createInfo
    {
      this.srcHost := srcHost;
      this.srcPort := srcPort;
      this.srcUser := srcUser;
      this.srcPswd := srcPswd;
      this.trgHost := trgHost;
      this.trgPort := trgPort;
      this.trgUser := trgUser;
      this.trgPswd := trgPswd;
      this.databases := databases;
      this.createDb := createDb;
      this.createInfo := createInfo;
    }

    /** The source server as the commands see it. */
    function Source(): (e: Endpoint)
      reads this
    {
      Endpoint(Str(srcHost), srcPort, Str(srcUser), Str(srcPswd))
    }

    /** The target server as the commands see it. */
    function Target(): (e: Endpoint)
      reads this
    {
      Endpoint(Str(trgHost), trgPort, Str(trgUser), Str(trgPswd))
    }

    /** The six missing-argument checks, in order: each missing setting (absent or empty)
        is replaced by the answer to its prompt, and every supplied one is kept. */
    method ResolveCredentials(replies: Replies) returns (asked: seq<Field>)
      modifies this
      ensures srcHost == Some(Fallback(old(srcHost), replies.srcHost))
      ensures srcUser == Some(Fallback(old(srcUser), replies.srcUser))
      ensures srcPswd == Some(Fallback(old(srcPswd), replies.srcPswd))
      ensures trgHost == Some(Fallback(old(trgHost), replies.trgHost))
      ensures trgUser == Some(Fallback(old(trgUser), replies.trgUser))
      ensures trgPswd == Some(Fallback(old(trgPswd), replies.trgPswd))
      ensures asked == Prompted(old(srcHost), old(srcUser), old(srcPswd),
                                old(trgHost), old(trgUser), old(trgPswd))
      ensures srcPort == old(srcPort) && trgPort == old(trgPort)
      ensures databases == old(databases)
      ensures createDb == old(createDb) && createInfo == old(createInfo)
    {
      asked := [];
      asked := asked + Ask(SrcHost, Missing(srcHost));
      srcHost := Some(Fallback(srcHost, replies.srcHost));
      asked := asked + Ask(SrcUser, Missing(srcUser));
      srcUser := Some(Fallback(srcUser, replies.srcUser));
      asked := asked + Ask(SrcPswd, Missing(srcPswd));
      srcPswd := Some(Fallback(srcPswd, replies.srcPswd));
      asked := asked + Ask(TrgHost, Missing(trgHost));
      trgHost := Some(Fallback(trgHost, replies.trgHost));
      asked := asked + Ask(TrgUser, Missing(trgUser));
      trgUser := Some(Fallback(trgUser, replies.trgUser));
      asked := asked + Ask(TrgPswd, Missing(trgPswd));
      trgPswd := Some(Fallback(trgPswd, replies.trgPswd));
    }

    /** The schema list is reset to "" and then every item of the catalog query's result is
        appended, as text. */
    method ReplaceDatabases(items: seq<string>)
      modifies this
      ensures databases == Some(Concat(items))
      ensures srcHost == old(srcHost) && srcPort == old(srcPort)
      ensures srcUser == old(srcUser) && srcPswd == old(srcPswd)
      ensures trgHost == old(trgHost) && trgPort == old(trgPort)
      ensures trgUser == old(trgUser) && trgPswd == old(trgPswd)
      ensures createDb == old(createDb) && createInfo == old(createInfo)
    {
      databases := Some("");
      for i := 0 to |items|
        invariant databases == Some(Concat(items[..i]))
        invariant srcHost == old(srcHost) && srcPort == old(srcPort)
        invariant srcUser == old(srcUser) && srcPswd == old(srcPswd)
        invariant trgHost == old(trgHost) && trgPort == old(trgPort)
        invariant trgUser == old(trgUser) && trgPswd == old(trgPswd)
        invariant createDb == old(createDb) && createInfo == old(createInfo)
      {
        assert items[..i + 1][..i] == items[..i];
        databases := Some(databases.value + items[i]);
      }
      assert items[..|items|] == items;
    }
  }
}
