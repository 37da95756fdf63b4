/** Drive search strings (drive_storage.py): the escaping of values and the
    folder query built from them read back as what went in. */
module DriveQuery {
  import opened Common

  /** str.replace of a one-character pattern over the whole string. */
  function Replace(s: string, c: char, by': string): string {
    if s == [] then [] else (if s[0] == c then by' else [s[0]]) + Replace(s[1..], c, by')
  }

  /** Backslashes first, then quotes. */
  function Escape(s: string): string {
    Replace(Replace(s, '\\', "\\\\"), '\'', "\\'")
  }

  function EscapeChar(c: char): string {
    if c == '\\' then "\\\\" else if c == '\'' then "\\'" else [c]
  }

  /** One left-to-right pass, each character on its own. */
  function EscapeEach(s: string): string {
    if s == [] then [] else EscapeChar(s[0]) + EscapeEach(s[1..])
  }

  lemma {:induction false} ReplaceConcat(a: string, b: string, c: char, by': string)
    ensures Replace(a + b, c, by') == Replace(a, c, by') + Replace(b, c, by')
  {
    if a == [] {
      assert a + b == b;
    } else {
      assert (a + b)[0] == a[0] && (a + b)[1..] == a[1..] + b;
      ReplaceConcat(a[1..], b, c, by');
    }
  }

  /** The two whole-string replaces equal one per-character map. */
  lemma {:induction false} EscapeIsPerCharacter(s: string)
    ensures Escape(s) == EscapeEach(s)
  {
    if s != [] {
      EscapeIsPerCharacter(s[1..]);
      var first := if s[0] == '\\' then "\\\\" else [s[0]];
      ReplaceConcat(first, Replace(s[1..], '\\', "\\\\"), '\'', "\\'");
      if s[0] == '\\' {
        assert "\\\\"[1..] == "\\" && "\\"[1..] == "";
        assert Replace("\\", '\'', "\\'") == "\\";
        assert Replace("\\\\", '\'', "\\'") == "\\\\";
      } else {
        assert [s[0]][1..] == [];
        assert Replace([s[0]], '\'', "\\'") == EscapeChar(s[0]);
      }
    }
  }

  /** Reads a literal whose opening quote has been consumed: a backslash stands
      for the character after it, and a bare quote ends the literal. */
  function ReadLiteral(s: string): Option<(string, string)> {
    if s == [] then None
    else if s[0] == '\'' then Some(([], s[1..]))
    else if s[0] == '\\' then
      if |s| < 2 then None else
        match ReadLiteral(s[2..])
        case None => None
        case Some((v, rest)) => Some(([s[1]] + v, rest))
    else
      match ReadLiteral(s[1..])
      case None => None
      case Some((v, rest)) => Some(([s[0]] + v, rest))
  }

  /** Lexing a quoted escaped value gives the value back, and leaves exactly
      whatever follows it. */
  lemma {:induction false} LiteralRoundTrip(value: string, rest: string)
    ensures ReadLiteral(Escape(value) + "'" + rest) == Some((value, rest))
  {
    EscapeIsPerCharacter(value);
    EachRoundTrip(value, rest);
  }

  lemma {:induction false} EachRoundTrip(value: string, rest: string)
    ensures ReadLiteral(EscapeEach(value) + "'" + rest) == Some((value, rest))
  {
    if value == [] {
      assert EscapeEach(value) + "'" + rest == "'" + rest;
    } else {
      var c, tail := value[0], value[1..];
      EachRoundTrip(tail, rest);
      var after := EscapeEach(tail) + "'" + rest;
      var all := EscapeEach(value) + "'" + rest;
      assert all == EscapeChar(c) + after;
      assert value == [c] + tail;
      if c == '\\' || c == '\'' {
        assert all[2..] == after;
      } else {
        assert all[1..] == after;
      }
    }
  }

  const NAME_IS: string := "name = '"
  const IS_FOLDER: string := " and mimeType = 'application/vnd.google-apps.folder' and trashed = false"
  const AND: string := " and '"
  const IN_PARENTS: string := " in parents"

  /** Python truth of the optional parent id. */
  function ParentGiven(parent: Option<string>): Option<string> {
    if parent.Some? && parent.value != "" then parent else None
  }

  /** ensure_folder's query string. */
  function FolderQuery(name: string, parent: Option<string>): string {
    NAME_IS + (Escape(name) + "'" + (IS_FOLDER +
      if ParentGiven(parent).Some? then AND + (Escape(parent.value) + "'" + IN_PARENTS) else ""))
  }

  /** Reads such a query: the name literal, the fixed middle, and the parent
      literal when there is one. */
  function ReadQuery(s: string): Option<(string, Option<string>)> {
    if !(NAME_IS <= s) then None else
      match ReadLiteral(s[|NAME_IS|..])
      case None => None
      case Some((name, rest)) =>
        if !(IS_FOLDER <= rest) then None else ReadParent(name, rest[|IS_FOLDER|..])
  }

  function ReadParent(name: string, s: string): Option<(string, Option<string>)> {
    if s == "" then Some((name, None))
    else if !(AND <= s) then None
    else
      match ReadLiteral(s[|AND|..])
      case None => None
      case Some((parent, rest)) => if rest == IN_PARENTS then Some((name, Some(parent))) else None
  }

  lemma {:induction false} PrefixDrops(a: string, b: string)
    ensures a <= a + b && (a + b)[|a|..] == b
  {
  }

  /** The folder query reads back as the name and parent it was built from, for
      all strings; so different lookups never share a query. */
  lemma {:induction false} FolderQueryRoundTrip(name: string, parent: Option<string>)
    ensures ReadQuery(FolderQuery(name, parent)) == Some((name, ParentGiven(parent)))
  {
    var tail := if ParentGiven(parent).Some? then AND + (Escape(parent.value) + "'" + IN_PARENTS) else "";
    PrefixDrops(NAME_IS, Escape(name) + "'" + (IS_FOLDER + tail));
    LiteralRoundTrip(name, IS_FOLDER + tail);
    PrefixDrops(IS_FOLDER, tail);
    if ParentGiven(parent).Some? {
      PrefixDrops(AND, Escape(parent.value) + "'" + IN_PARENTS);
      LiteralRoundTrip(parent.value, IN_PARENTS);
    }
  }

  lemma {:induction false} FolderQueryIsInjective(name: string, parent: Option<string>, name': string, parent': Option<string>)
    requires FolderQuery(name, parent) == FolderQuery(name', parent')
    ensures name == name' && ParentGiven(parent) == ParentGiven(parent')
  {
    FolderQueryRoundTrip(name, parent);
    FolderQueryRoundTrip(name', parent');
  }

  /** The query, written out. An empty parent id asks for no parent, as a missing one. */
  lemma {:induction false} FolderQueryText(name: string, parent: Option<string>)
    ensures FolderQuery(name, parent) ==
              "name = '" + (Escape(name) + "'" + (" and mimeType = 'application/vnd.google-apps.folder' and trashed = false" +
                if parent.Some? && parent.value != "" then " and '" + (Escape(parent.value) + "'" + " in parents") else ""))
  {
  }

  /** Only backslashes and single quotes are escaped, each by one backslash before it. */
  lemma {:induction false} EscapeCharacters(s: string)
    ensures (forall c | c in s :: c != '\\' && c != '\'') ==> Escape(s) == s
    ensures Escape("'") == "\\'" && Escape("\\") == "\\\\"
  {
    EscapeIsPerCharacter(s);
    EscapeIsPerCharacter("'");
    EscapeIsPerCharacter("\\");
    assert "'"[1..] == "" && "\\"[1..] == "";
    if forall c | c in s :: c != '\\' && c != '\'' { OrdinaryIsKept(s); }
  }

  lemma {:induction false} OrdinaryIsKept(s: string)
    requires forall c | c in s :: c != '\\' && c != '\''
    ensures EscapeEach(s) == s
  {
    if s != [] {
      assert s[0] in s && forall c | c in s[1..] :: c in s;
      OrdinaryIsKept(s[1..]);
      assert s == [s[0]] + s[1..];
    }
  }
}
