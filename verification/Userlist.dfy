/**
 The userlist file: what its text means, line by line, and what editing the text does to
 that meaning. Whether a PHC string is an acceptable Argon2id hash is a parameter, `phcOk`.
 */
module Userlist {
  import opened Options
  import opened Texts
  import Utf8
  import Hex

  const ARGON2_DIRECTIVE_PREFIX := "# alighieri:user:argon2:"
  const FIELD_MAX_BYTES: nat := 255

  datatype Credential = Plain(password: string) | Argon2(phc: string)

  datatype Problem = InvalidArgon2 | ExpectedColon | EmptyUsername

  /** What one line says. */
  datatype Meaning = Skip | Bind(user: string, credential: Credential) | Bad(problem: Problem)

  /** The database, or the number of the first bad line. */
  datatype Parsed = Parsed(users: map<string, Credential>) | Rejected(line: nat, problem: Problem)

  predicate ValidUsername(u: string) {
    && Trim(u) != "" && u == Trim(u)
    && ':' !in u && '\n' !in u && '\r' !in u && '\0' !in u
    && |Utf8.Encode(u)| <= FIELD_MAX_BYTES
  }

  // ---------------------------------------------------------------------------
  // One line
  // ---------------------------------------------------------------------------

  datatype Directive = NoDirective | Malformed | Directive(user: string, phc: string)

  function ParseDirective(trimmed: string): Directive {
    match StripPrefix(trimmed, ARGON2_DIRECTIVE_PREFIX)
    case None => NoDirective
    case Some(rest) =>
      match SplitOnce(rest, ':')
      case None => Malformed
      case Some((encoded, phc)) =>
        match Hex.HexDecodeUtf8(encoded)
        case Err(_) => Malformed
        case Ok(user) => if ValidUsername(user) then Directive(user, phc) else Malformed
  }

  function PlainMeaning(trimmed: string): Meaning {
    if trimmed == "" || trimmed[0] == '#' then Skip
    else
      match SplitOnce(trimmed, ':')
      case None => Bad(ExpectedColon)
      case Some((user, password)) =>
        if Trim(user) == "" then Bad(EmptyUsername) else Bind(Trim(user), Plain(password))
  }

  /** How the loader reads a line. */
  function MeaningOf(line: string, phcOk: string -> bool): Meaning {
    var trimmed := Trim(line);
    match ParseDirective(trimmed)
    case Malformed => Bad(InvalidArgon2)
    case Directive(user, phc) => if phcOk(phc) then Bind(user, Argon2(phc)) else Bad(InvalidArgon2)
    case NoDirective => PlainMeaning(trimmed)
  }

  /** How the editor reads a line: whose entry it is. */
  function EntryUsername(line: string): Option<string> {
    var trimmed := Trim(line);
    var d := ParseDirective(trimmed);
    if d.Directive? then Some(d.user)
    else if trimmed == "" || trimmed[0] == '#' then None
    else
      match SplitOnce(trimmed, ':')
      case None => None
      case Some((user, _)) => if Trim(user) == "" then None else Some(Trim(user))
  }

  predicate IsEntryOf(line: string, user: string) {
    EntryUsername(line) == Some(user)
  }

  /** Loader and editor agree on whose line it is; the editor also owns up to bad hashes. */
  lemma EditorAgreesWithLoader(line: string, phcOk: string -> bool)
    ensures match MeaningOf(line, phcOk)
            case Bind(user, _) => EntryUsername(line) == Some(user)
            case Skip => EntryUsername(line) == None
            case Bad(problem) =>
              EntryUsername(line).Some? <==>
                ParseDirective(Trim(line)).Directive? && !phcOk(ParseDirective(Trim(line)).phc)
  {
  }

  /** The line for a user, unless the name or the password is unacceptable; the hash is made elsewhere. */
  function HashUserLine(user: string, password: string, hash: string): Option<string> {
    if ValidUsername(user) && |Utf8.Encode(password)| <= FIELD_MAX_BYTES
    then Some(ARGON2_DIRECTIVE_PREFIX + Hex.HexText(Utf8.Encode(user)) + ":" + hash)
    else None
  }

  /** What hashing yields: text without white space that the loader accepts. */
  predicate IsHash(hash: string, phcOk: string -> bool) {
    hash != "" && (forall i :: 0 <= i < |hash| ==> !IsWhite(hash[i])) && phcOk(hash)
  }

  /** A generated line is one line, and binds its user to its hash. */
  lemma GeneratedLineBinds(user: string, password: string, hash: string, phcOk: string -> bool)
    requires HashUserLine(user, password, hash).Some? && IsHash(hash, phcOk)
    ensures var line := HashUserLine(user, password, hash).value;
            OneLine(line) && MeaningOf(line, phcOk) == Bind(user, Argon2(hash))
  {
    var digits := Hex.HexText(Utf8.Encode(user));
    var rest := digits + [':'] + hash;
    assert ARGON2_DIRECTIVE_PREFIX + rest == HashUserLine(user, password, hash).value;
    hide HashUserLine, Hex.HexText, Utf8.Encode, ParseDirective, Trim;
    DigitsAreDigits(Utf8.Encode(user));
    GeneratedLineIsTrimmed(ARGON2_DIRECTIVE_PREFIX, digits, hash, phcOk);
    GeneratedDirective(user, hash);
  }

  lemma GeneratedLineIsTrimmed(prefix: string, digits: string, hash: string, phcOk: string -> bool)
    requires OneLine(prefix) && prefix != "" && !IsWhite(prefix[0]) && OneLine(digits) && IsHash(hash, phcOk)
    ensures var line := prefix + (digits + [':'] + hash); OneLine(line) && Trim(line) == line
  {
    hide Trim;
    assert OneLine(hash);
    TrimIsTrimmed(prefix + (digits + [':'] + hash));
  }

  lemma GeneratedDirective(user: string, hash: string)
    requires ValidUsername(user)
    ensures ParseDirective(ARGON2_DIRECTIVE_PREFIX + (Hex.HexText(Utf8.Encode(user)) + [':'] + hash))
            == Directive(user, hash)
  {
    hide ValidUsername;
    var digits := Hex.HexText(Utf8.Encode(user));
    var rest := digits + [':'] + hash;
    DigitsAreDigits(Utf8.Encode(user));
    hide Hex.HexText, Utf8.Encode, Hex.HexDecodeUtf8;
    var line := ARGON2_DIRECTIVE_PREFIX + rest;
    assert line[|ARGON2_DIRECTIVE_PREFIX|..] == rest;
    SplitOnceUndoes(digits, ':', hash);
    Hex.DecodeUndoesHex(user);
  }

  lemma DigitsAreDigits(b: seq<Utf8.Byte>)
    ensures ':' !in Hex.HexText(b) && '\n' !in Hex.HexText(b)
  {
  }

  // ---------------------------------------------------------------------------
  // The whole text
  // ---------------------------------------------------------------------------

  /** One more line, the n-th. */
  function Extend(p: Parsed, m: Meaning, n: nat): Parsed {
    if p.Rejected? then p
    else
      match m
      case Skip => p
      case Bind(user, credential) => Parsed(p.users[user := credential])
      case Bad(problem) => Rejected(n, problem)
  }

  function ParseLines(ls: seq<string>, phcOk: string -> bool): Parsed {
    if ls == [] then Parsed(map[])
    else Extend(ParseLines(ls[..|ls| - 1], phcOk), MeaningOf(ls[|ls| - 1], phcOk), |ls|)
  }

  function Parse(text: string, phcOk: string -> bool): Parsed {
    ParseLines(Lines(text), phcOk)
  }

  method ParseUserlist(text: string, phcOk: string -> bool) returns (r: Parsed)
    ensures r == Parse(text, phcOk)
  {
    hide ParseDirective, Trim, SplitOnce, Lines;
    var lines := Lines(text);
    var users: map<string, Credential> := map[];
    for i := 0 to |lines|
      invariant ParseLines(lines[..i], phcOk) == Parsed(users)
    {
      var lineno := i + 1;
      assert lines[..lineno][..i] == lines[..i];
      var trimmed := Trim(lines[i]);
      var directive := ParseDirective(trimmed);
      if directive.Malformed? || (directive.Directive? && !phcOk(directive.phc)) {
        RejectedEarly(lines, lineno, phcOk);
        return Rejected(lineno, InvalidArgon2);
      }
      if directive.Directive? {
        users := users[directive.user := Argon2(directive.phc)];
        continue;
      }
      if trimmed == "" || trimmed[0] == '#' {
        continue;
      }
      var split := SplitOnce(trimmed, ':');
      if split.None? {
        RejectedEarly(lines, lineno, phcOk);
        return Rejected(lineno, ExpectedColon);
      }
      var user := Trim(split.value.0);
      if user == "" {
        RejectedEarly(lines, lineno, phcOk);
        return Rejected(lineno, EmptyUsername);
      }
      users := users[user := Plain(split.value.1)];
    }
    assert lines[..|lines|] == lines;
    return Parsed(users);
  }

  /** A bad line decides for the whole text, whatever follows. */
  lemma {:induction false} RejectedEarly(ls: seq<string>, n: nat, phcOk: string -> bool)
    requires n <= |ls| && ParseLines(ls[..n], phcOk).Rejected?
    ensures ParseLines(ls, phcOk) == ParseLines(ls[..n], phcOk)
    decreases |ls|
  {
    if n == |ls| {
      assert ls[..n] == ls;
    } else {
      assert ls[..|ls| - 1][..n] == ls[..n];
      RejectedEarly(ls[..|ls| - 1], n, phcOk);
    }
  }

  lemma ParseSnoc(init: seq<string>, l: string, phcOk: string -> bool)
    ensures ParseLines(init + [l], phcOk) == Extend(ParseLines(init, phcOk), MeaningOf(l, phcOk), |init| + 1)
  {
    assert (init + [l])[..|init|] == init;
  }

  predicate Binds(l: string, user: string, phcOk: string -> bool) {
    MeaningOf(l, phcOk).Bind? && MeaningOf(l, phcOk).user == user
  }

  /** The last line that binds a user. */
  ghost predicate LastBinding(ls: seq<string>, phcOk: string -> bool, i: int, user: string) {
    0 <= i < |ls| && Binds(ls[i], user, phcOk) && forall j :: i < j < |ls| ==> !Binds(ls[j], user, phcOk)
  }

  /** The number of the first bad line. */
  ghost predicate FirstBad(ls: seq<string>, phcOk: string -> bool, n: nat) {
    1 <= n <= |ls| && MeaningOf(ls[n - 1], phcOk).Bad? && forall j :: 0 <= j < n - 1 ==> !MeaningOf(ls[j], phcOk).Bad?
  }

  /** A text is rejected at its first bad line, with that line's problem, and for no other reason. */
  lemma {:induction false} RejectsFirstBad(ls: seq<string>, phcOk: string -> bool)
    ensures match ParseLines(ls, phcOk)
            case Rejected(n, problem) => FirstBad(ls, phcOk, n) && MeaningOf(ls[n - 1], phcOk) == Bad(problem)
            case Parsed(users) => forall i :: 0 <= i < |ls| ==> !MeaningOf(ls[i], phcOk).Bad?
  {
    if ls != [] {
      var init, last := ls[..|ls| - 1], ls[|ls| - 1];
      assert ls == init + [last];
      hide MeaningOf;
      ParseSnoc(init, last, phcOk);
      hide ParseLines;
      RejectsFirstBad(init, phcOk);
      assert forall i :: 0 <= i < |init| ==> ls[i] == init[i];
    }
  }

  /** A user is in the database exactly when some line binds it. */
  lemma {:induction false} BoundBySomeLine(ls: seq<string>, user: string, phcOk: string -> bool)
    requires ParseLines(ls, phcOk).Parsed?
    ensures user in ParseLines(ls, phcOk).users <==> exists l :: l in ls && Binds(l, user, phcOk)
  {
    if ls != [] {
      var init, last := ls[..|ls| - 1], ls[|ls| - 1];
      assert ls == init + [last];
      hide MeaningOf;
      ParseSnoc(init, last, phcOk);
      hide ParseLines;
      assert user in ParseLines(ls, phcOk).users <==> user in ParseLines(init, phcOk).users || Binds(last, user, phcOk);
      BoundBySomeLine(init, user, phcOk);
      hide Binds;
    }
  }

  /** Its credential is that of the last line that binds it. */
  lemma {:induction false} LastBindingWins(ls: seq<string>, user: string, phcOk: string -> bool) returns (i: int)
    requires ParseLines(ls, phcOk).Parsed? && user in ParseLines(ls, phcOk).users
    ensures LastBinding(ls, phcOk, i, user)
    ensures ParseLines(ls, phcOk).users[user] == MeaningOf(ls[i], phcOk).credential
  {
    if ls != [] {
      var init, last := ls[..|ls| - 1], ls[|ls| - 1];
      assert ls == init + [last];
      hide MeaningOf;
      ParseSnoc(init, last, phcOk);
      hide ParseLines;
      if Binds(last, user, phcOk) {
        i := |init|;
      } else {
        assert user in ParseLines(init, phcOk).users;
        assert ParseLines(init, phcOk).users[user] == ParseLines(ls, phcOk).users[user];
        i := LastBindingWins(init, user, phcOk);
        hide Extend;
        assert ls[i] == init[i];
        forall j | i < j < |ls| ensures !Binds(ls[j], user, phcOk) {
          assert j < |init| ==> ls[j] == init[j];
        }
      }
    }
  }

  // ---------------------------------------------------------------------------
  // Editing lines
  // ---------------------------------------------------------------------------

  /** Some line is an entry of this user. */
  predicate Mentions(ls: seq<string>, user: string) {
    ls != [] && (Mentions(ls[..|ls| - 1], user) || IsEntryOf(ls[|ls| - 1], user))
  }

  /** Every entry of this user gives way to the new line. */
  function Replaced(ls: seq<string>, user: string, line: string): seq<string> {
    if ls == [] then []
    else
      var n := |ls| - 1;
      Replaced(ls[..n], user, line) + [if IsEntryOf(ls[n], user) then line else ls[n]]
  }

  function UpsertedLines(ls: seq<string>, user: string, line: string): seq<string> {
    Replaced(ls, user, line) + (if Mentions(ls, user) then [] else [line])
  }

  function Kept(ls: seq<string>, user: string): seq<string> {
    if ls == [] then []
    else
      var n := |ls| - 1;
      Kept(ls[..n], user) + (if IsEntryOf(ls[n], user) then [] else [ls[n]])
  }

  /** Every bad line is an entry of this user. */
  predicate OnlyBadAre(ls: seq<string>, user: string, phcOk: string -> bool) {
    forall l :: l in ls && MeaningOf(l, phcOk).Bad? ==> IsEntryOf(l, user)
  }

  /** Exactly the lines that are not entries of this user. */
  lemma {:induction false} KeptIs(ls: seq<string>, user: string, l: string)
    ensures l in Kept(ls, user) <==> l in ls && !IsEntryOf(l, user)
  {
    if ls != [] {
      hide IsEntryOf;
      var init, last := ls[..|ls| - 1], ls[|ls| - 1];
      KeptIs(init, user, l);
      assert ls == init + [last];
    }
  }

  lemma {:induction false} KeptIsAll(ls: seq<string>, user: string)
    requires !Mentions(ls, user)
    ensures Kept(ls, user) == ls
  {
    hide IsEntryOf;
    if ls != [] {
      var init, last := ls[..|ls| - 1], ls[|ls| - 1];
      assert ls == init + [last];
      KeptIsAll(init, user);
    }
  }

  lemma {:induction false} MentionsMeans(ls: seq<string>, user: string)
    ensures Mentions(ls, user) <==> exists l :: l in ls && IsEntryOf(l, user)
  {
    if ls != [] {
      hide IsEntryOf;
      var init, last := ls[..|ls| - 1], ls[|ls| - 1];
      assert ls == init + [last];
      EditSnoc(init, last, user, "");
      hide Mentions;
      MentionsMeans(init, user);
    }
  }

  lemma {:induction false} ReplacedHas(ls: seq<string>, user: string, line: string, l: string)
    ensures l in Replaced(ls, user, line) <==> (l in ls && !IsEntryOf(l, user)) || (l == line && Mentions(ls, user))
  {
    if ls != [] {
      var init, last := ls[..|ls| - 1], ls[|ls| - 1];
      assert ls == init + [last];
      hide IsEntryOf;
      EditSnoc(init, last, user, line);
      hide Replaced, Mentions;
      ReplacedHas(init, user, line, l);
    }
  }

  lemma BadRejects(ls: seq<string>, l: string, phcOk: string -> bool)
    requires l in ls && MeaningOf(l, phcOk).Bad?
    ensures ParseLines(ls, phcOk).Rejected?
  {
    RejectsFirstBad(ls, phcOk);
  }

  lemma EditSnoc(init: seq<string>, l: string, user: string, line: string)
    ensures Mentions(init + [l], user) <==> Mentions(init, user) || IsEntryOf(l, user)
    ensures Kept(init + [l], user) == if IsEntryOf(l, user) then Kept(init, user) else Kept(init, user) + [l]
    ensures Replaced(init + [l], user, line) == Replaced(init, user, line) + [if IsEntryOf(l, user) then line else l]
  {
    assert (init + [l])[..|init|] == init;
  }

  lemma ExtendWithout(p: Parsed, q: Parsed, m: Meaning, n: nat, k: nat, user: string)
    requires p.Parsed? ==> q.Parsed? && q.users == p.users - {user}
    requires m.Bind? ==> m.user != user
    ensures Extend(p, m, n).Parsed? ==>
              Extend(q, m, k).Parsed? && Extend(q, m, k).users == Extend(p, m, n).users - {user}
  {
  }

  /** Without the user's lines, the database lacks that user and nothing else. */
  lemma {:induction false} KeptParses(ls: seq<string>, user: string, phcOk: string -> bool)
    requires OnlyBadAre(ls, user, phcOk)
    ensures ParseLines(Kept(ls, user), phcOk).Parsed? && user !in ParseLines(Kept(ls, user), phcOk).users
    ensures ParseLines(ls, phcOk).Parsed? ==>
              ParseLines(Kept(ls, user), phcOk).users == ParseLines(ls, phcOk).users - {user}
  {
    if ls != [] {
      var init, last := ls[..|ls| - 1], ls[|ls| - 1];
      assert ls == init + [last];
      hide *;
      OnlyBadBefore(init, last, user, phcOk);
      KeptParses(init, user, phcOk);
      EntryIsBound(last, user, phcOk);
      EditSnoc(init, last, user, "");
      ParseSnoc(init, last, phcOk);
      var p, q, m := ParseLines(init, phcOk), ParseLines(Kept(init, user), phcOk), MeaningOf(last, phcOk);
      if IsEntryOf(last, user) {
        ExtendSame(p, m, |ls|, user);
      } else {
        ParseSnoc(Kept(init, user), last, phcOk);
        ExtendOther(q, m, |Kept(init, user)| + 1, user);
        ExtendWithout(p, q, m, |ls|, |Kept(init, user)| + 1, user);
      }
    }
  }

  lemma EntryIsBound(l: string, user: string, phcOk: string -> bool)
    ensures Binds(l, user, phcOk) ==> IsEntryOf(l, user)
    ensures !MeaningOf(l, phcOk).Bad? && IsEntryOf(l, user) ==> Binds(l, user, phcOk)
    ensures MeaningOf(l, phcOk).Bind? && !IsEntryOf(l, user) ==> MeaningOf(l, phcOk).user != user
  {
    EditorAgreesWithLoader(l, phcOk);
  }

  lemma OnlyBadBefore(init: seq<string>, last: string, user: string, phcOk: string -> bool)
    requires OnlyBadAre(init + [last], user, phcOk)
    ensures OnlyBadAre(init, user, phcOk) && (MeaningOf(last, phcOk).Bad? ==> IsEntryOf(last, user))
  {
    hide MeaningOf, IsEntryOf;
    assert last in init + [last];
    assert forall l :: l in init ==> l in init + [last];
  }

  lemma ExtendSame(p: Parsed, m: Meaning, n: nat, user: string)
    requires m.Bind? ==> m.user == user
    ensures Extend(p, m, n).Parsed? ==> p.Parsed? && Extend(p, m, n).users - {user} == p.users - {user}
  {
  }

  lemma ExtendOther(q: Parsed, m: Meaning, n: nat, user: string)
    requires q.Parsed? && user !in q.users && !m.Bad? && (m.Bind? ==> m.user != user)
    ensures Extend(q, m, n).Parsed? && user !in Extend(q, m, n).users
  {
  }

  /** With the user's lines replaced, the database has the new credential and is otherwise the same. */
  lemma {:induction false} ReplacedParses(
    ls: seq<string>, user: string, line: string, credential: Credential, phcOk: string -> bool)
    requires OnlyBadAre(ls, user, phcOk) && MeaningOf(line, phcOk) == Bind(user, credential)
    ensures ParseLines(Kept(ls, user), phcOk).Parsed?
    ensures var rest := ParseLines(Kept(ls, user), phcOk).users;
            ParseLines(Replaced(ls, user, line), phcOk) == Rebound(rest, Mentions(ls, user), user, credential)
  {
    hide *;
    KeptParses(ls, user, phcOk);
    if ls == [] {
      NothingToEdit(user, line, credential, phcOk);
    } else {
      var init, last := ls[..|ls| - 1], ls[|ls| - 1];
      assert ls == init + [last];
      OnlyBadBefore(init, last, user, phcOk);
      ReplacedParses(init, user, line, credential, phcOk);
      EntryIsBound(last, user, phcOk);
      EditSnoc(init, last, user, line);
      var replaced, kept := Replaced(init, user, line), Kept(init, user);
      var rest, m := ParseLines(kept, phcOk).users, MeaningOf(last, phcOk);
      ParseSnoc(replaced, if IsEntryOf(last, user) then line else last, phcOk);
      if IsEntryOf(last, user) {
        Rebinds(rest, Mentions(init, user), user, credential, |replaced| + 1);
      } else {
        ParseSnoc(kept, last, phcOk);
        ReboundExtends(rest, Mentions(init, user), user, credential, m, |replaced| + 1, |kept| + 1);
      }
    }
  }

  lemma NothingToEdit(user: string, line: string, credential: Credential, phcOk: string -> bool)
    ensures ParseLines(Kept([], user), phcOk) == Parsed(map[])
    ensures ParseLines(Replaced([], user, line), phcOk) == Rebound(map[], Mentions([], user), user, credential)
  {
  }

  function Rebound(rest: map<string, Credential>, mentioned: bool, user: string, credential: Credential): Parsed {
    Parsed(if mentioned then rest[user := credential] else rest)
  }

  lemma Rebinds(rest: map<string, Credential>, mentioned: bool, user: string, credential: Credential, n: nat)
    ensures Extend(Rebound(rest, mentioned, user, credential), Bind(user, credential), n)
            == Rebound(rest, true, user, credential)
  {
  }

  lemma ReboundExtends(
    rest: map<string, Credential>, mentioned: bool, user: string, credential: Credential, m: Meaning, n: nat, k: nat)
    requires !m.Bad? && (m.Bind? ==> m.user != user)
    ensures Extend(Parsed(rest), m, k).Parsed?
    ensures Extend(Rebound(rest, mentioned, user, credential), m, n)
            == Rebound(Extend(Parsed(rest), m, k).users, mentioned, user, credential)
  {
  }

  /** Lines after an upsert parse exactly when the user's were the only bad ones. */
  lemma UpsertedLinesParse(ls: seq<string>, user: string, line: string, credential: Credential, phcOk: string -> bool)
    requires MeaningOf(line, phcOk) == Bind(user, credential)
    ensures ParseLines(UpsertedLines(ls, user, line), phcOk).Parsed? <==> OnlyBadAre(ls, user, phcOk)
    ensures OnlyBadAre(ls, user, phcOk) ==>
              && ParseLines(Kept(ls, user), phcOk).Parsed?
              && ParseLines(UpsertedLines(ls, user, line), phcOk)
                 == Parsed(ParseLines(Kept(ls, user), phcOk).users[user := credential])
  {
    hide MeaningOf, IsEntryOf;
    var upserted := UpsertedLines(ls, user, line);
    if OnlyBadAre(ls, user, phcOk) {
      ReplacedParses(ls, user, line, credential, phcOk);
      if Mentions(ls, user) {
        assert upserted == Replaced(ls, user, line);
      } else {
        assert upserted[..|upserted| - 1] == Replaced(ls, user, line) && upserted[|upserted| - 1] == line;
      }
    } else {
      var l :| l in ls && MeaningOf(l, phcOk).Bad? && !IsEntryOf(l, user);
      ReplacedHas(ls, user, line, l);
      BadRejects(upserted, l, phcOk);
    }
  }

  lemma KeptParsesIff(ls: seq<string>, user: string, phcOk: string -> bool)
    ensures ParseLines(Kept(ls, user), phcOk).Parsed? <==> OnlyBadAre(ls, user, phcOk)
  {
    hide MeaningOf, IsEntryOf;
    if OnlyBadAre(ls, user, phcOk) {
      KeptParses(ls, user, phcOk);
    } else {
      var l :| l in ls && MeaningOf(l, phcOk).Bad? && !IsEntryOf(l, user);
      KeptIs(ls, user, l);
      BadRejects(Kept(ls, user), l, phcOk);
    }
  }

  // ---------------------------------------------------------------------------
  // Editing text
  // ---------------------------------------------------------------------------

  function UpsertedText(text: string, user: string, line: string): string {
    Join(UpsertedLines(Lines(text), user, line)) + "\n"
  }

  function DeletedText(text: string, user: string): string {
    if Mentions(Lines(text), user) then
      var output := Join(Kept(Lines(text), user));
      if output == "" then "" else output + "\n"
    else text
  }

  /** Returns the new text and whether the user had an entry before. */
  method UpsertUserlistEntry(existing: string, user: string, line: string) returns (output: string, replaced: bool)
    ensures output == UpsertedText(existing, user, line)
    ensures replaced <==> Mentions(Lines(existing), user)
  {
    hide IsEntryOf, Lines, Join;
    replaced := false;
    var lines: seq<string> := [];
    var before := Lines(existing);
    for i := 0 to |before|
      invariant lines == Replaced(before[..i], user, line)
      invariant replaced <==> Mentions(before[..i], user)
    {
      assert before[..i + 1][..i] == before[..i];
      if IsEntryOf(before[i], user) {
        lines := lines + [line];
        replaced := true;
      } else {
        lines := lines + [before[i]];
      }
    }
    assert before[..|before|] == before;
    if !replaced {
      lines := lines + [line];
    }
    assert lines == UpsertedLines(before, user, line);
    output := Join(lines);
    output := output + "\n";
  }

  /** Returns what the file holds afterwards: the old text when there was nothing to remove. */
  method DeleteUserlistEntry(existing: string, user: string) returns (output: string, removed: bool)
    ensures output == DeletedText(existing, user)
    ensures removed <==> Mentions(Lines(existing), user)
  {
    hide IsEntryOf, Lines, Join;
    removed := false;
    var lines: seq<string> := [];
    var before := Lines(existing);
    for i := 0 to |before|
      invariant lines == Kept(before[..i], user)
      invariant removed <==> Mentions(before[..i], user)
    {
      assert before[..i + 1][..i] == before[..i];
      if IsEntryOf(before[i], user) {
        removed := true;
      } else {
        lines := lines + [before[i]];
      }
    }
    assert before[..|before|] == before;
    if !removed {
      return existing, false;
    }
    output := Join(lines);
    if output != "" {
      output := output + "\n";
    }
  }

  lemma CrIsNothing(line: string, phcOk: string -> bool)
    ensures MeaningOf(StripCr(line), phcOk) == MeaningOf(line, phcOk)
  {
    if line != "" && line[|line| - 1] == '\r' {
      TrimDropsEnd(StripCr(line), '\r');
      assert line == StripCr(line) + ['\r'];
    }
  }

  lemma {:induction false} StrippedParses(ls: seq<string>, phcOk: string -> bool)
    ensures ParseLines(Stripped(ls), phcOk) == ParseLines(ls, phcOk)
  {
    if ls != [] {
      hide MeaningOf, StripCr;
      var n := |ls| - 1;
      assert Stripped(ls)[..n] == Stripped(ls[..n]);
      StrippedParses(ls[..n], phcOk);
      CrIsNothing(ls[n], phcOk);
    }
  }

  /** Writing lines out and loading them again means what the lines meant. */
  lemma WrittenLinesParse(ls: seq<string>, phcOk: string -> bool)
    requires OneLiners(ls)
    ensures ls != [] ==> Parse(Join(ls) + "\n", phcOk) == ParseLines(ls, phcOk)
    ensures Join(ls) == "" ==> Parse("", phcOk) == ParseLines(ls, phcOk)
  {
    if ls != [] {
      LinesOfJoined(ls);
      StrippedParses(ls, phcOk);
    }
    JoinedEmpty(ls);
    assert MeaningOf("", phcOk) == Skip;
    if ls == [""] {
      assert ls[..0] == [];
    }
  }

  lemma EditsAreOneLiners(text: string, user: string, line: string)
    requires OneLine(line)
    ensures OneLiners(UpsertedLines(Lines(text), user, line)) && OneLiners(Kept(Lines(text), user))
  {
    hide IsEntryOf, OneLine;
    var ls := Lines(text);
    LinesAreLines(text);
    forall l | l in Kept(ls, user) ensures OneLine(l) {
      KeptIs(ls, user, l);
    }
    forall l | l in Replaced(ls, user, line) ensures OneLine(l) {
      ReplacedHas(ls, user, line, l);
    }
  }

  /**
   Adding or changing a user is a map update. The new text loads exactly when every bad line
   of the old text was an entry of this user; if the old text loaded, the new database is the
   old one with this user rebound, however many entries the user had.
   */
  lemma UpsertIsMapUpdate(text: string, user: string, password: string, hash: string, phcOk: string -> bool)
    requires HashUserLine(user, password, hash).Some? && IsHash(hash, phcOk)
    ensures var after := Parse(UpsertedText(text, user, HashUserLine(user, password, hash).value), phcOk);
            && (after.Parsed? <==> OnlyBadAre(Lines(text), user, phcOk))
            && (after.Parsed? ==>
                  && Parse(DeletedText(text, user), phcOk).Parsed?
                  && after.users == Parse(DeletedText(text, user), phcOk).users[user := Argon2(hash)])
            && (Parse(text, phcOk).Parsed? ==> after == Parsed(Parse(text, phcOk).users[user := Argon2(hash)]))
  {
    hide *;
    var line := HashUserLine(user, password, hash).value;
    GeneratedLineBinds(user, password, hash, phcOk);
    UpsertedTextParses(text, user, line, phcOk);
    UpsertedLinesParse(Lines(text), user, line, Argon2(hash), phcOk);
    DeleteIsMapRemoval(text, user, phcOk);
    if Parse(text, phcOk).Parsed? {
      ParsedHasNoBad(text, user, phcOk);
      MapRebinds(Parse(text, phcOk).users, user, Argon2(hash));
    }
  }

  lemma UpsertedTextParses(text: string, user: string, line: string, phcOk: string -> bool)
    requires OneLine(line)
    ensures Parse(UpsertedText(text, user, line), phcOk) == ParseLines(UpsertedLines(Lines(text), user, line), phcOk)
  {
    var ls := Lines(text);
    var upserted := UpsertedLines(ls, user, line);
    EditsAreOneLiners(text, user, line);
    assert upserted != [];
    hide Parse, ParseLines, UpsertedLines, Lines, OneLiners;
    WrittenLinesParse(upserted, phcOk);
  }

  lemma ParsedHasNoBad(text: string, user: string, phcOk: string -> bool)
    requires Parse(text, phcOk).Parsed?
    ensures OnlyBadAre(Lines(text), user, phcOk)
  {
    hide MeaningOf, IsEntryOf;
    RejectsFirstBad(Lines(text), phcOk);
  }

  lemma MapRebinds(users: map<string, Credential>, user: string, credential: Credential)
    ensures (users - {user})[user := credential] == users[user := credential]
  {
  }

  /**
   Deleting a user is a map removal. What is left loads exactly when every bad line of the old
   text was an entry of this user; if the old text loaded, the new database is the old one
   without this user, and something was removed exactly when the user was there.
   */
  lemma DeleteIsMapRemoval(text: string, user: string, phcOk: string -> bool)
    ensures var after := Parse(DeletedText(text, user), phcOk);
            && (after.Parsed? <==> OnlyBadAre(Lines(text), user, phcOk))
            && (after.Parsed? ==> ParseLines(Kept(Lines(text), user), phcOk) == after && user !in after.users)
            && (Parse(text, phcOk).Parsed? ==>
                  && after == Parsed(Parse(text, phcOk).users - {user})
                  && (Mentions(Lines(text), user) <==> user in Parse(text, phcOk).users))
  {
    var ls := Lines(text);
    hide MeaningOf, IsEntryOf, Lines, Join;
    KeptParsesIff(ls, user, phcOk);
    if !Mentions(ls, user) {
      KeptIsAll(ls, user);
    } else {
      EditsAreOneLiners(text, user, "");
      WrittenLinesParse(Kept(ls, user), phcOk);
      if Kept(ls, user) == [] {
        JoinedEmpty(Kept(ls, user));
      }
    }
    if OnlyBadAre(ls, user, phcOk) {
      KeptParses(ls, user, phcOk);
    }
    if Parse(text, phcOk).Parsed? {
      ParsedHasNoBad(text, user, phcOk);
      MentionedIsBound(ls, user, phcOk);
    }
  }

  /** In a text that loads, the users mentioned are the users bound. */
  lemma MentionedIsBound(ls: seq<string>, user: string, phcOk: string -> bool)
    requires ParseLines(ls, phcOk).Parsed?
    ensures Mentions(ls, user) <==> user in ParseLines(ls, phcOk).users
  {
    RejectsFirstBad(ls, phcOk);
    assert forall l :: l in ls ==> !MeaningOf(l, phcOk).Bad?;
    hide *;
    BoundBySomeLine(ls, user, phcOk);
    MentionsMeans(ls, user);
    if Mentions(ls, user) {
      var l :| l in ls && IsEntryOf(l, user);
      EntryIsBound(l, user, phcOk);
    }
    if user in ParseLines(ls, phcOk).users {
      var l :| l in ls && Binds(l, user, phcOk);
      EntryIsBound(l, user, phcOk);
    }
  }

  // ---------------------------------------------------------------------------
  // Listing
  // ---------------------------------------------------------------------------

  /** Strings are ordered by their bytes. */
  predicate ByteLess(a: seq<Utf8.Byte>, b: seq<Utf8.Byte>) {
    b != [] && (a == [] || a[0] < b[0] || (a[0] == b[0] && ByteLess(a[1..], b[1..])))
  }

  predicate Before(a: string, b: string) {
    ByteLess(Utf8.Encode(a), Utf8.Encode(b))
  }

  lemma {:induction false} ByteLessIsOrder(a: seq<Utf8.Byte>, b: seq<Utf8.Byte>, c: seq<Utf8.Byte>)
    ensures !ByteLess(a, a)
    ensures a == b || ByteLess(a, b) || ByteLess(b, a)
    ensures ByteLess(a, b) && ByteLess(b, c) ==> ByteLess(a, c)
  {
    if a != [] {
      ByteLessIsOrder(a[1..], if b == [] then [] else b[1..], if c == [] then [] else c[1..]);
      if b != [] && a[0] == b[0] && a[1..] == b[1..] {
        assert a == [a[0]] + a[1..] && b == [b[0]] + b[1..];
      }
    }
  }

  lemma BeforeIsOrder(a: string, b: string, c: string)
    ensures a == b || Before(a, b) || Before(b, a)
    ensures Before(a, b) && Before(b, c) ==> Before(a, c)
    ensures !Before(a, a)
  {
    ByteLessIsOrder(Utf8.Encode(a), Utf8.Encode(b), Utf8.Encode(c));
    if Utf8.Encode(a) == Utf8.Encode(b) {
      Utf8.EncodeIsInjective(a, b);
    }
  }

  ghost predicate Ascending(names: seq<string>) {
    forall i, j :: 0 <= i < j < |names| ==> Before(names[i], names[j])
  }

  /** Insertion into an ordered set. */
  function Insert(names: seq<string>, x: string): seq<string> {
    if names == [] then [x]
    else if names[0] == x then names
    else if Before(x, names[0]) then [x] + names
    else [names[0]] + Insert(names[1..], x)
  }

  lemma {:induction false} InsertHas(names: seq<string>, x: string, y: string)
    ensures y in Insert(names, x) <==> y in names || y == x
  {
    if names != [] && names[0] != x && !Before(x, names[0]) {
      hide Before;
      InsertHas(names[1..], x, y);
      assert names == [names[0]] + names[1..];
    }
  }

  lemma {:induction false} InsertKeepsOrder(names: seq<string>, x: string)
    requires Ascending(names)
    ensures Ascending(Insert(names, x))
  {
    if names != [] && names[0] != x {
      hide Before;
      var first, rest := names[0], names[1..];
      if Before(x, first) {
        forall j | 0 <= j < |names| ensures Before(x, names[j]) {
          BeforeIsOrder(x, first, names[j]);
        }
      } else {
        BeforeIsOrder(x, first, first);
        InsertKeepsOrder(rest, x);
        forall y | y in Insert(rest, x) ensures Before(first, y) {
          InsertHas(rest, x, y);
        }
        PrependKeepsOrder(first, Insert(rest, x));
      }
    }
  }

  lemma PrependKeepsOrder(first: string, rest: seq<string>)
    requires Ascending(rest) && forall y :: y in rest ==> Before(first, y)
    ensures Ascending([first] + rest)
  {
    hide Before;
    var names := [first] + rest;
    forall i, j | 0 <= i < j < |names| ensures Before(names[i], names[j]) {
      assert names[j] == rest[j - 1];
      if i > 0 {
        assert names[i] == rest[i - 1];
      }
    }
  }

  lemma NamesGrow(lines: seq<string>, i: nat, names: seq<string>)
    requires i < |lines| && forall u :: u in names <==> Mentions(lines[..i], u)
    ensures var user := EntryUsername(lines[i]);
            var grown := if user.Some? then Insert(names, user.value) else names;
            forall u :: u in grown <==> Mentions(lines[..i + 1], u)
  {
    var user := EntryUsername(lines[i]);
    var grown := if user.Some? then Insert(names, user.value) else names;
    assert lines[..i + 1] == lines[..i] + [lines[i]];
    forall u ensures u in grown <==> Mentions(lines[..i + 1], u) {
      assert IsEntryOf(lines[i], u) <==> user == Some(u);
      hide *;
      EditSnoc(lines[..i], lines[i], u, "");
      if user.Some? {
        InsertHas(names, user.value, u);
      }
    }
  }

  lemma MentionedInText(text: string, user: string, phcOk: string -> bool)
    requires Parse(text, phcOk).Parsed?
    ensures Mentions(Lines(text), user) <==> user in Parse(text, phcOk).users
  {
    hide ParseLines, Mentions, Lines;
    MentionedIsBound(Lines(text), user, phcOk);
  }

  /** The users of a text that loads, in strictly ascending order; of any other text, its problem. */
  method UserlistUsernames(text: string, phcOk: string -> bool)
    returns (problem: Option<(nat, Problem)>, names: seq<string>)
    ensures match Parse(text, phcOk)
            case Rejected(n, p) => problem == Some((n, p)) && names == []
            case Parsed(users) => problem == None && Ascending(names) && forall u :: u in names <==> u in users
  {
    names := [];
    var parsed := ParseUserlist(text, phcOk);
    if parsed.Rejected? {
      return Some((parsed.line, parsed.problem)), [];
    }
    problem := None;
    var lines := Lines(text);
    assert Ascending(names) && forall u :: !Mentions(lines[..0], u);
    hide *;
    for i := 0 to |lines|
      invariant Ascending(names)
      invariant forall u :: u in names <==> Mentions(lines[..i], u)
    {
      var user := EntryUsername(lines[i]);
      NamesGrow(lines, i, names);
      if user.Some? {
        InsertKeepsOrder(names, user.value);
        names := Insert(names, user.value);
      }
    }
    assert lines[..|lines|] == lines;
    forall u ensures u in names <==> u in parsed.users {
      MentionedInText(text, u, phcOk);
    }
  }
}
