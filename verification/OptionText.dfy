/**
 * The text of an option script, ADD, SET and DROP clauses joined by commas, and how the server reads
 * it. Names are printed without quoting and values between quotes as they are. The reader takes the
 * blanks where the dialogs print them and quotes as with standard-conforming strings.
 */
module OptionText {
  import opened Basics
  import opened SyncScript
  import opened SqlText

  type Clause = Stmt<string, string>

  predicate IsClause(s: Clause)
  {
    s.Add? || s.Set? || s.Drop?
  }

  function PrintClause(s: Clause): (r: string)
    requires IsClause(s)
    ensures r != ""
  {
    match s
    case Add(name, value) => "ADD " + (name + (" '" + (value + "'")))
    case Set(name, value) => "SET " + (name + (" '" + (value + "'")))
    case Drop(name) => "DROP " + name
  }

  function PrintScript(script: seq<Clause>): (r: string)
    requires forall i :: 0 <= i < |script| ==> IsClause(script[i])
    ensures r == "" <==> script == []
  {
    if script == [] then ""
    else if |script| == 1 then PrintClause(script[0])
    else PrintClause(script[0]) + (", " + PrintScript(script[1..]))
  }

  /** A clause as the dialogs append it to the text so far. */
  function AppendClause(text: string, s: Clause): string
    requires IsClause(s)
  {
    (if |text| > 0 then text + ", " else text) + PrintClause(s)
  }

  lemma {:induction false} PrintOneMore(script: seq<Clause>, s: Clause)
    requires IsClause(s) && forall i :: 0 <= i < |script| ==> IsClause(script[i])
    ensures PrintScript(script + [s]) == AppendClause(PrintScript(script), s)
    decreases |script|
  {
    if script == [] { assert script + [s] == [s]; return; }
    var first, rest := PrintClause(script[0]), script[1..];
    assert (script + [s])[1..] == rest + [s];
    PrintOneMore(rest, s);
    if rest == [] { Regroup(first, ", ", PrintClause(s)); }
    else {
      var text := PrintScript(rest);
      Regroup(text, ", ", PrintClause(s));
      Regroup(", ", text, ", " + PrintClause(s));
      Regroup(first, ", " + text, ", " + PrintClause(s));
      Regroup(first + (", " + text), ", ", PrintClause(s));
    }
  }

  // ----- the server's reading

  const NAME_LIMIT := 63

  predicate IsNameStart(c: char)
  {
    'a' <= c <= 'z' || 'A' <= c <= 'Z' || c == '_' || c >= '\U{0080}'
  }

  predicate IsNameChar(c: char)
  {
    IsNameStart(c) || '0' <= c <= '9' || c == '$'
  }

  /** The longest start of the text that can belong to a name. */
  function NameRun(t: string): (r: string)
    ensures r <= t
  {
    if t == "" || !IsNameChar(t[0]) then "" else [t[0]] + NameRun(t[1..])
  }

  function Truncate(name: string): string
  {
    if |name| > NAME_LIMIT then name[..NAME_LIMIT] else name
  }

  /** A name: delimited as it is, otherwise in lower case and cut to the limit (section 4.1.1 of the manual). */
  function ReadName(t: string): Option<(string, string)>
  {
    if t == "" then None
    else if t[0] == '"' then
      match DecodeBody(t[1..], '"', false)
      case None => None
      case Some((name, rest)) => if name == "" then None else Some((Truncate(name), rest))
    else if IsNameStart(t[0]) then Some((Truncate(Lower(NameRun(t))), t[|NameRun(t)|..]))
    else None
  }

  function ReadNameAndValue(t: string): Option<(string, string, string)>
  {
    match ReadName(t)
    case None => None
    case Some((name, u)) =>
      if !(" '" <= u) then None
      else
        match DecodeBody(u[2..], '\'', false)
        case None => None
        case Some((value, rest)) => Some((name, value, rest))
  }

  function ReadClause(t: string): Option<(Clause, string)>
  {
    if "DROP " <= t then
      match ReadName(t[5..])
      case None => None
      case Some((name, rest)) => Some((Drop(name), rest))
    else if "ADD " <= t || "SET " <= t then
      match ReadNameAndValue(t[4..])
      case None => None
      case Some((name, value, rest)) => Some((if "ADD " <= t then Add(name, value) else Set(name, value), rest))
    else None
  }

  /** Reads clauses separated by commas; an empty text is an empty script. */
  function ReadScript(t: string): Option<seq<Clause>>
    decreases |t|
  {
    if t == "" then Some([])
    else
      match ReadClause(t)
      case None => None
      case Some((s, u)) =>
        if u == "" then Some([s])
        else if !(", " < u) || |u| > |t| then None
        else WithFirst(s, ReadScript(u[2..]))
  }

  // ----- when it reads what was meant

  /** What a printed clause can be followed by. */
  predicate Follows(z: string)
  {
    z == "" || z[0] == ' ' || z[0] == ','
  }

  /** A name that stays itself without quotes. */
  predicate PlainName(name: string)
  {
    && name != "" && |name| <= NAME_LIMIT && IsNameStart(name[0]) && Lower(name) == name
    && forall i :: 0 <= i < |name| ==> IsNameChar(name[i])
  }

  predicate PlainClause(s: Clause)
    requires IsClause(s)
  {
    PlainName(s.key) && (!s.Drop? ==> '\'' !in s.value)
  }

  lemma {:induction false} NameRunEnds(name: string, z: string)
    requires Follows(z)
    ensures |NameRun(name + z)| <= |name|
    ensures |NameRun(name + z)| == |name| <==> forall i :: 0 <= i < |name| ==> IsNameChar(name[i])
    decreases |name|
  {
    if name == "" { assert name + z == z; }
    else {
      assert (name + z)[1..] == name[1..] + z;
      NameRunEnds(name[1..], z);
      if forall i :: 0 <= i < |name[1..]| ==> IsNameChar(name[1..][i]) {
        assert forall i :: 0 < i < |name| ==> name[i] == name[1..][i - 1];
      }
    }
  }

  /** Delimited text never reads as the same text with its delimiter. */
  lemma DelimitedIsOther(name: string, z: string)
    requires Follows(z) && name != "" && name[0] == '"'
    ensures ReadName(name + z).Some? ==> ReadName(name + z).value.0 != name
  {
    var t := name + z;
    var read := DecodeBody(t[1..], '"', false);
    if read.Some? {
      DecodedLead(t[1..], '"');
      LeadConcat(name, z, '"');
      var v := read.value.0;
      LeadConcat(Truncate(v), v[|Truncate(v)|..], '"');
      assert v == Truncate(v) + v[|Truncate(v)|..];
      assert Lead(t, '"') == 1 + Lead(t[1..], '"');
    }
  }

  lemma NameReadsBack(name: string, z: string)
    requires Follows(z)
    ensures PlainName(name) ==> ReadName(name + z) == Some((name, z))
    ensures !PlainName(name) ==> ReadName(name + z).None? || ReadName(name + z).value.0 != name
  {
    var t := name + z;
    NameRunEnds(name, z);
    if |NameRun(t)| == |name| { assert NameRun(t) == t[..|name|] == name; }
    if !PlainName(name) && name != "" {
      assert t[0] == name[0];
      if name[0] == '"' { DelimitedIsOther(name, z); }
    }
  }

  lemma ValueReadsBack(name: string, value: string, z: string)
    requires Follows(z)
    ensures var t := name + (" '" + (value + ("'" + z)));
            if PlainName(name) && '\'' !in value then ReadNameAndValue(t) == Some((name, value, z))
            else forall r :: ReadNameAndValue(t) != Some((name, value, r))
  {
    var body := value + ("'" + z);
    NameReadsBack(name, " '" + body);
    if PlainName(name) {
      assert (" '" + body)[2..] == body;
      Regroup(value, "'", z);
      RawReadsBack(value, '\'', z);
    }
  }

  /** A clause and what follows it, with the printed text grouped as it is read. */
  function Tail(s: Clause, z: string): string
    requires IsClause(s)
  {
    if s.Drop? then s.key + z else s.key + (" '" + (s.value + ("'" + z)))
  }

  function Verb(s: Clause): string
    requires IsClause(s)
  {
    if s.Add? then "ADD " else if s.Set? then "SET " else "DROP "
  }

  lemma PrintedGrouped(s: Clause, z: string)
    requires IsClause(s)
    ensures PrintClause(s) + z == Verb(s) + Tail(s, z)
  {
    if s.Drop? { Regroup("DROP ", s.key, z); }
    else {
      var a, b := " '" + (s.value + "'"), s.value + "'";
      Regroup(Verb(s), s.key + a, z);
      Regroup(s.key, a, z);
      Regroup(" '", b, z);
      Regroup(s.value, "'", z);
    }
  }

  lemma VerbIsRead(s: Clause, z: string)
    requires IsClause(s)
    ensures var t := PrintClause(s) + z;
            && ("DROP " <= t <==> s.Drop?) && ("ADD " <= t <==> s.Add?) && ("SET " <= t <==> s.Set?)
            && t[|Verb(s)|..] == Tail(s, z)
  {
    PrintedGrouped(s, z);
    var t := Verb(s) + Tail(s, z);
    assert t[..|Verb(s)|] == Verb(s) && t[0] == Verb(s)[0];
  }

  lemma DropReadsBack(s: Clause, z: string)
    requires s.Drop? && Follows(z)
    ensures if PlainClause(s) then ReadClause(PrintClause(s) + z) == Some((s, z))
            else forall r :: ReadClause(PrintClause(s) + z) != Some((s, r))
  {
    VerbIsRead(s, z);
    NameReadsBack(s.key, z);
  }

  lemma SettingReadsBack(s: Clause, z: string)
    requires (s.Add? || s.Set?) && Follows(z)
    ensures if PlainClause(s) then ReadClause(PrintClause(s) + z) == Some((s, z))
            else forall r :: ReadClause(PrintClause(s) + z) != Some((s, r))
  {
    VerbIsRead(s, z);
    ValueReadsBack(s.key, s.value, z);
  }

  /** A clause is read back, up to its end, if and only if its name and value are plain. */
  lemma ClauseReadsBack(s: Clause, z: string)
    requires IsClause(s) && Follows(z)
    ensures if PlainClause(s) then ReadClause(PrintClause(s) + z) == Some((s, z))
            else forall r :: ReadClause(PrintClause(s) + z) != Some((s, r))
  {
    if s.Drop? { DropReadsBack(s, z); } else { SettingReadsBack(s, z); }
  }

  /** The whole text is read back as the script if and only if every clause is plain. */
  lemma {:induction false} ScriptReadsBack(script: seq<Clause>)
    requires forall i :: 0 <= i < |script| ==> IsClause(script[i])
    ensures ReadScript(PrintScript(script)) == Some(script) <==>
            forall i :: 0 <= i < |script| ==> PlainClause(script[i])
    decreases |script|
  {
    if script != [] {
      var s, rest := script[0], script[1..];
      var z := if rest == [] then "" else ", " + PrintScript(rest);
      var t := PrintClause(s) + z;
      assert PrintScript(script) == t;
      ClauseReadsBack(s, z);
      ScriptReadsBack(rest);
      assert script == [s] + rest;
      if PlainClause(s) {
        if rest != [] { ReadOnward(t, s, z, PrintScript(rest)); } else { ReadLast(t, s); }
        WithFirstSame(s, ReadScript(PrintScript(rest)), rest);
        assert forall i :: 0 < i < |script| ==> script[i] == rest[i - 1];
        assert forall i :: 0 <= i < |rest| ==> rest[i] == script[i + 1];
      } else if ReadScript(t) == Some(script) {
        FirstClauseRead(t, script);
      }
    }
  }

  lemma FirstClauseRead(t: string, script: seq<Clause>)
    requires script != [] && ReadScript(t) == Some(script)
    ensures ReadClause(t).Some? && ReadClause(t) == Some((script[0], ReadClause(t).value.1))
  {
  }

  lemma ReadLast(t: string, s: Clause)
    requires t != "" && ReadClause(t) == Some((s, ""))
    ensures ReadScript(t) == WithFirst(s, ReadScript(""))
  {
    assert [s] + [] == [s];
  }

  lemma ReadOnward(t: string, s: Clause, z: string, text: string)
    requires t != "" && ReadClause(t) == Some((s, z)) && |z| <= |t| && text != "" && z == ", " + text
    ensures ReadScript(t) == WithFirst(s, ReadScript(text))
  {
    assert ", " < z && z[2..] == text;
  }

  /** An option with upper-case letters: the text drops the one in lower case instead. */
  lemma UpperCaseDropsAnother()
    ensures ReadScript(PrintScript([Drop("Host")])) == Some([Drop("host")])
  {
    var t := PrintScript([Drop("Host")]);
    assert t == "DROP Host" && t[5..] == "Host";
    NameRunEnds("Host", "");
    assert "Host" + "" == "Host";
    assert NameRun("Host") == "Host";
    assert Lower("Host") == "host";
  }

  /** A value with a quote is never read back, whatever the name. */
  lemma QuotedValueIsMisread(name: string, value: string)
    requires '\'' in value
    ensures ReadScript(PrintScript([Set(name, value)])) != Some([Set(name, value)])
  {
    ScriptReadsBack([Set(name, value)]);
    assert !PlainClause([Set(name, value)][0]);
  }
}
