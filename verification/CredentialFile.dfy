/** What the credential file says, written out from its texts: newlines end lines, commas end
    fields, and of several lines for one user the last one counts
    (src/SocksLoginPassAuthorizer.cpp:13-28). */
module CredentialFile {
  import opened Wrappers
  import opened SocksTypes
  import opened StringUtils
  import opened Authorizer

  /** Each text followed by a newline. */
  function Terminated(texts: seq<Bytes>): Bytes {
    if |texts| == 0 then [] else texts[0] + [0x0a] + Terminated(texts[1..])
  }

  predicate OneLine(text: Bytes) {
    0x0a !in text
  }

  predicate AllOneLine(texts: seq<Bytes>) {
    forall i :: 0 <= i < |texts| ==> OneLine(texts[i])
  }

  // ---------------------------------------------------------------- lines

  lemma FindByte(s: Bytes, c: Byte, from: nat, i: nat)
    requires from <= i < |s| && s[i] == c && c !in s[from..i]
    ensures Find(s, [c], from) == Some(i)
  {
    OccursByte(s, c, i);
    FindIsFirst(s, [c], from, i);
    forall j: nat | from <= j < i
      ensures !OccursAt(s, [c], j)
    {
      OccursByte(s, c, j);
      assert s[j] == s[from..i][j - from];
    }
  }

  lemma FindNoByte(s: Bytes, c: Byte, from: nat)
    requires from <= |s| && c !in s[from..]
    ensures Find(s, [c], from) == None
  {
    forall j: nat | from <= j <= |s|
      ensures !OccursAt(s, [c], j)
    {
      OccursByte(s, c, j);
      assert j < |s| ==> s[j] == s[from..][j - from];
    }
  }

  lemma SplitHere(content: Bytes, from: nat, text: Bytes, rest: Bytes)
    requires from <= |content| && content[from..] == text + ([0x0a] + rest)
    ensures var i := from + |text|;
            i < |content| && content[i] == 0x0a && content[from..i] == text && content[i + 1..] == rest
  {
    var s := content[from..];
    assert s[|text|] == 0x0a && s[..|text|] == text && s[|text| + 1..] == rest;
  }

  lemma LineHere(content: Bytes, from: nat, text: Bytes, rest: Bytes)
    requires from <= |content| && content[from..] == text + ([0x0a] + rest) && OneLine(text)
    ensures var i := from + |text| + 1;
            i <= |content| && content[i..] == rest && Lines(content, from) == [text] + Lines(content, i)
  {
    SplitHere(content, from, text, rest);
    FindByte(content, 0x0a, from, from + |text|);
  }

  lemma LastHere(content: Bytes, from: nat)
    requires from <= |content| && OneLine(content[from..])
    ensures Lines(content, from) == if content[from..] == [] then [] else [content[from..]]
  {
    FindNoByte(content, 0x0a, from);
  }

  lemma FirstText(texts: seq<Bytes>, last: Bytes)
    requires |texts| > 0
    ensures Terminated(texts) + last == texts[0] + ([0x0a] + (Terminated(texts[1..]) + last))
  {
  }

  lemma FirstAgain(texts: seq<Bytes>, tail: seq<Bytes>)
    requires |texts| > 0
    ensures [texts[0]] + (texts[1..] + tail) == texts + tail
  {
  }

  lemma {:induction false} LinesFrom(content: Bytes, from: nat, texts: seq<Bytes>, last: Bytes)
    requires from <= |content| && content[from..] == Terminated(texts) + last
    requires OneLine(last) && AllOneLine(texts)
    ensures Lines(content, from) == texts + if last == [] then [] else [last]
    decreases |texts|
  {
    if |texts| == 0 {
      assert content[from..] == last;
      LastHere(content, from);
    } else {
      var i := from + |texts[0]| + 1;
      assert OneLine(texts[0]);
      var rest := Terminated(texts[1..]) + last;
      FirstText(texts, last);
      LineHere(content, from, texts[0], rest);
      LinesFrom(content, i, texts[1..], last);
      FirstAgain(texts, if last == [] then [] else [last]);
    }
  }

  /** The lines of a file of texts without newlines, each ended by one but perhaps the last,
      are these texts. */
  lemma LinesOfTexts(texts: seq<Bytes>, last: Bytes)
    requires OneLine(last) && AllOneLine(texts)
    ensures Lines(Terminated(texts) + last, 0) == texts + if last == [] then [] else [last]
  {
    var content := Terminated(texts) + last;
    assert content[0..] == content;
    LinesFrom(content, 0, texts, last);
  }

  lemma {:induction false} FirstNewline(s: Bytes) returns (i: nat)
    requires 0x0a in s
    ensures i < |s| && s[i] == 0x0a && 0x0a !in s[..i]
  {
    if s[0] == 0x0a {
      i := 0;
    } else {
      i := FirstNewline(s[1..]);
      assert s[..i + 1] == [s[0]] + s[1..][..i];
      i := i + 1;
    }
  }

  /** Every file is such a one. */
  lemma {:induction false} EveryFileIsTexts(content: Bytes) returns (texts: seq<Bytes>, last: Bytes)
    ensures content == Terminated(texts) + last
    ensures OneLine(last) && AllOneLine(texts)
  {
    if 0x0a in content {
      var i := FirstNewline(content);
      var rest;
      rest, last := EveryFileIsTexts(content[i + 1..]);
      texts := [content[..i]] + rest;
      assert content == content[..i] + [0x0a] + content[i + 1..];
      assert texts[1..] == rest;
    } else {
      texts, last := [], content;
    }
  }

  /** No line of any file contains a newline. */
  lemma LinesAreLines(content: Bytes)
    ensures AllOneLine(Lines(content, 0))
  {
    var texts, last := EveryFileIsTexts(content);
    LinesOfTexts(texts, last);
  }

  // ---------------------------------------------------------------- fields

  /** The fields of a line are what stands between its commas. */
  lemma FieldsOfLine(parts: seq<Bytes>)
    requires |parts| > 0 && forall k :: 0 <= k < |parts| ==> 0x2c !in parts[k]
    ensures Fields(Join(parts, [0x2c])) == parts
  {
    OneCharacterDelimiter(parts, 0x2c);
  }

  lemma TwoFields(user: Bytes, password: Bytes)
    requires 0x2c !in user && 0x2c !in password
    ensures Fields(user + [0x2c] + password) == [user, password]
  {
    var parts := [user, password];
    assert parts[1..] == [password] && Join([password], [0x2c]) == password;
    FieldsOfLine(parts);
  }

  // ---------------------------------------------------------------- entries

  datatype Entry = Entry(user: Bytes, password: Bytes)

  predicate Plain(text: Bytes) {
    0x0a !in text && 0x2c !in text
  }

  function Text(e: Entry): Bytes {
    e.user + [0x2c] + e.password
  }

  function Texts(entries: seq<Entry>): (r: seq<Bytes>)
    ensures |r| == |entries| && forall i :: 0 <= i < |r| ==> r[i] == Text(entries[i])
  {
    seq(|entries|, i requires 0 <= i < |entries| => Text(entries[i]))
  }

  lemma TextNames(e: Entry, user: Bytes)
    requires Plain(e.user) && Plain(e.password)
    ensures OneLine(Text(e)) && (Names(Text(e), user) <==> e.user == user)
    ensures |Fields(Text(e))| == 2 && Fields(Text(e))[1] == e.password
  {
    TwoFields(e.user, e.password);
  }

  /** The last entry of the user carries the password. */
  predicate LastEntryGrants(entries: seq<Entry>, user: Bytes, password: Bytes) {
    exists i :: 0 <= i < |entries| && entries[i] == Entry(user, password)
                && forall j :: i < j < |entries| ==> entries[j].user != user
  }

  lemma LastOfTexts(entries: seq<Entry>, user: Bytes, password: Bytes)
    requires forall i :: 0 <= i < |entries| ==> Plain(entries[i].user) && Plain(entries[i].password)
    ensures LastLineGrants(Texts(entries), user, password) <==> LastEntryGrants(entries, user, password)
  {
    var lines := Texts(entries);
    forall i | 0 <= i < |entries|
      ensures Names(lines[i], user) <==> entries[i].user == user
      ensures |Fields(lines[i])| == 2 && Fields(lines[i])[1] == entries[i].password
    {
      TextNames(entries[i], user);
    }
    if LastLineGrants(lines, user, password) {
      var i :| 0 <= i < |lines| && Names(lines[i], user) && Fields(lines[i])[1] == password
               && forall j :: i < j < |lines| ==> !Names(lines[j], user);
      assert entries[i] == Entry(user, password);
    }
    if LastEntryGrants(entries, user, password) {
      var i :| 0 <= i < |entries| && entries[i] == Entry(user, password)
               && forall j :: i < j < |entries| ==> entries[j].user != user;
      assert Names(lines[i], user);
    }
  }

  /** A file of user and password pairs, one in a line, grants exactly the last pair of each
      user. */
  lemma FileOfEntries(entries: seq<Entry>, user: Bytes, password: Bytes)
    requires forall i :: 0 <= i < |entries| ==> Plain(entries[i].user) && Plain(entries[i].password)
    ensures Authorized(EnterAll(map[], Lines(Terminated(Texts(entries)), 0)), user, password)
            <==> LastEntryGrants(entries, user, password)
  {
    var lines := Texts(entries);
    forall i | 0 <= i < |lines|
      ensures OneLine(lines[i])
    {
      TextNames(entries[i], user);
    }
    LinesOfTexts(lines, []);
    assert Terminated(lines) + [] == Terminated(lines) && lines + [] == lines;
    TableIsBackwardScan(map[], lines, user, password);
    LastOfTexts(entries, user, password);
  }
}
