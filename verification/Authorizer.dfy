/** The credential table (src/SocksLoginPassAuthorizer.cpp). */
module Authorizer {
  import opened Wrappers
  import opened SocksTypes
  import opened StringUtils

  const COMMA: Bytes := [0x2c]
  const NEWLINE: Bytes := [0x0a]

  /** The lines that a `std::getline` loop delivers from position `from` on. */
  function Lines(content: Bytes, from: nat): seq<Bytes>
    requires from <= |content|
    decreases |content| - from
  {
    if from == |content| then []
    else
      match Find(content, NEWLINE, from)
      case None => [content[from..]]
      case Some(i) => [content[from..i]] + Lines(content, i + 1)
  }

  function Fields(line: Bytes): seq<Bytes> {
    Split(line, COMMA)
  }

  /** The line has at least two fields and the first one is `user`. */
  predicate Names(line: Bytes, user: Bytes) {
    |Fields(line)| >= 2 && Fields(line)[0] == user
  }

  function Enter(table: map<Bytes, Bytes>, line: Bytes): map<Bytes, Bytes> {
    if |Fields(line)| < 2 then table else table[Fields(line)[0] := Fields(line)[1]]
  }

  function EnterAll(table: map<Bytes, Bytes>, lines: seq<Bytes>): map<Bytes, Bytes>
    decreases |lines|
  {
    if |lines| == 0 then table else EnterAll(Enter(table, lines[0]), lines[1..])
  }

  predicate Authorized(table: map<Bytes, Bytes>, user: Bytes, password: Bytes) {
    user in table && table[user] == password
  }

  /** The last line that names the user carries the password. */
  predicate LastLineGrants(lines: seq<Bytes>, user: Bytes, password: Bytes) {
    exists i :: 0 <= i < |lines| && Names(lines[i], user) && Fields(lines[i])[1] == password
                && forall j :: i < j < |lines| ==> !Names(lines[j], user)
  }

  predicate NoneNames(lines: seq<Bytes>, user: Bytes) {
    forall i :: 0 <= i < |lines| ==> !Names(lines[i], user)
  }

  /** Scanning from the back reaches the first line only if no later one names the user. */
  lemma FirstLineIsLast(lines: seq<Bytes>, user: Bytes, password: Bytes)
    requires |lines| > 0
    ensures LastLineGrants(lines, user, password) <==>
            LastLineGrants(lines[1..], user, password)
            || (NoneNames(lines[1..], user) && Names(lines[0], user) && Fields(lines[0])[1] == password)
  {
    var rest := lines[1..];
    assert forall i :: 0 < i < |lines| ==> lines[i] == rest[i - 1];
    if LastLineGrants(rest, user, password) {
      var i :| 0 <= i < |rest| && Names(rest[i], user) && Fields(rest[i])[1] == password
               && forall j :: i < j < |rest| ==> !Names(rest[j], user);
      assert Names(lines[i + 1], user);
    }
    if LastLineGrants(lines, user, password) {
      var i :| 0 <= i < |lines| && Names(lines[i], user) && Fields(lines[i])[1] == password
               && forall j :: i < j < |lines| ==> !Names(lines[j], user);
      if i > 0 {
        assert Names(rest[i - 1], user);
      } else {
        assert forall j :: 0 <= j < |rest| ==> rest[j] == lines[j + 1];
      }
    }
  }

  lemma OneLineEntered(table: map<Bytes, Bytes>, line: Bytes, user: Bytes, password: Bytes)
    ensures Authorized(Enter(table, line), user, password) <==>
            if Names(line, user) then Fields(line)[1] == password else Authorized(table, user, password)
  {
  }

  lemma {:induction false} TableIsBackwardScan(table: map<Bytes, Bytes>, lines: seq<Bytes>,
                                               user: Bytes, password: Bytes)
    ensures Authorized(EnterAll(table, lines), user, password) <==>
            LastLineGrants(lines, user, password)
            || (Authorized(table, user, password) && NoneNames(lines, user))
    decreases |lines|
  {
    if |lines| == 0 {
    } else {
      TableIsBackwardScan(Enter(table, lines[0]), lines[1..], user, password);
      FirstLineIsLast(lines, user, password);
      OneLineEntered(table, lines[0], user, password);
      assert lines == [lines[0]] + lines[1..];
    }
  }

  class SocksLoginPassAuthorizer {
    var userLoginPass: map<Bytes, Bytes>

    constructor ()
      ensures userLoginPass == map[]
    {
      userLoginPass := map[];
    }

    /** `file` is the content of the opened file, `None` when it cannot be opened. */
    method ReadFile(file: Option<Bytes>) returns (ok: bool)
      modifies this
      ensures ok == file.Some?
      ensures userLoginPass == if ok then EnterAll(old(userLoginPass), Lines(file.value, 0))
                               else old(userLoginPass)
    {
      if file.None? {
        return false;
      }
      var content := file.value;
      var pos := 0;
      while pos < |content|
        invariant pos <= |content|
        invariant EnterAll(userLoginPass, Lines(content, pos))
               == EnterAll(old(userLoginPass), Lines(content, 0))
      {
        ghost var remaining := Lines(content, pos);
        var line, next := GetLine(content, pos);
        assert remaining[0] == line && remaining[1..] == Lines(content, next);
        pos := next;
        var strings := StringSplit(line, COMMA);
        if |strings| < 2 {
          continue;
        }
        userLoginPass := userLoginPass[strings[0] := strings[1]];
      }
      return true;
    }

    static lemma LinesHere(content: Bytes, pos: nat)
      requires pos < |content|
      ensures match Find(content, NEWLINE, pos)
              case None => Lines(content, pos) == [content[pos..]] && Lines(content, |content|) == []
              case Some(i) => i < |content| && Lines(content, pos) == [content[pos..i]] + Lines(content, i + 1)
    {
    }

    static lemma NoNewlineBefore(content: Bytes, pos: nat)
      requires pos <= |content|
      ensures match Find(content, NEWLINE, pos)
              case None => 0x0a !in content[pos..]
              case Some(i) => i < |content| && content[i] == 0x0a && 0x0a !in content[pos..i]
    {
      var end := match Find(content, NEWLINE, pos) case None => |content| case Some(i) => i;
      forall j | pos <= j < end
        ensures content[j] != 0x0a
      {
        OccursByte(content, 0x0a, j);
        if content[j] == 0x0a {
          FindIsFirst(content, NEWLINE, pos, j);
        }
      }
      if end < |content| {
        OccursByte(content, 0x0a, end);
      }
    }

    static method GetLine(content: Bytes, pos: nat) returns (line: Bytes, next: nat)
      requires pos < |content|
      ensures pos < next <= |content|
      ensures Lines(content, pos) == [line] + Lines(content, next)
      ensures pos + |line| <= |content| && content[pos..pos + |line|] == line && 0x0a !in line
      ensures if next == pos + |line| then next == |content|
              else next == pos + |line| + 1 && content[next - 1] == 0x0a
    {
      var end := Find(content, NEWLINE, pos);
      NoNewlineBefore(content, pos);
      LinesHere(content, pos);
      match end {
        case None =>
          line, next := content[pos..], |content|;
          assert [line] + [] == [line];
        case Some(i) =>
          line, next := content[pos..i], i + 1;
      }
    }

    method IsMethodSupported(authMethod: Byte) returns (r: bool)
      ensures r == (authMethod == AUTH_LOGIN_PASS)
    {
      r := authMethod == AUTH_LOGIN_PASS;
    }

    method AuthUserPassword(user: Bytes, password: Bytes) returns (r: bool)
      ensures r == Authorized(userLoginPass, user, password)
    {
      if user !in userLoginPass {
        return false;
      }
      return userLoginPass[user] == password;
    }
  }

  /** What the constructor of the authorizer builds: it throws (`None`) exactly when the
      file cannot be opened, and otherwise accepts exactly what the last naming line grants. */
  method Open(file: Option<Bytes>) returns (auth: SocksLoginPassAuthorizer?)
    ensures auth != null <==> file.Some?
    ensures auth != null ==> forall user, password ::
              Authorized(auth.userLoginPass, user, password)
              <==> LastLineGrants(Lines(file.value, 0), user, password)
  {
    var a := new SocksLoginPassAuthorizer();
    var ok := a.ReadFile(file);
    if !ok {
      return null;
    }
    forall user, password
      ensures Authorized(a.userLoginPass, user, password)
              <==> LastLineGrants(Lines(file.value, 0), user, password)
    {
      TableIsBackwardScan(map[], Lines(file.value, 0), user, password);
    }
    return a;
  }
}
