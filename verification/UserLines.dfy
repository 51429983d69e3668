/** What a line of a userlist has to look like to mean what: each meaning, and exactly the lines that have it. */
module UserLines {
  import opened Options
  import opened Texts
  import opened Userlist
  import Ascii
  import Utf8
  import Hex

  /** An entry in plain text: a name without a colon, a colon, and the password as it stands. */
  ghost predicate SaysPlain(t: string, user: string, password: string) {
    exists name :: ':' !in name && Trim(name) == user && t == name + ":" + password
  }

  /** An entry with a hash: the directive, the name in hexadecimal of either case, a colon, and the hash. */
  ghost predicate SaysHashed(t: string, user: string, hash: string) {
    exists digits :: && ':' !in digits && Ascii.Lower(digits) == Hex.HexText(Utf8.Encode(user))
                     && t == "# alighieri:user:argon2:" + digits + ":" + hash
  }

  /** Neither empty nor a comment. */
  predicate IsPlain(t: string) {
    t != "" && t[0] != '#'
  }

  predicate IsDirective(t: string) {
    "# alighieri:user:argon2:" <= t
  }

  lemma SplitOnceIff(s: string, c: char, a: string, b: string)
    ensures SplitOnce(s, c) == Some((a, b)) <==> c !in a && s == a + [c] + b
    ensures SplitOnce(s, c).None? <==> c !in s
  {
    var i := IndexOf(s, c);
    assert s == s[..i] + s[i..];
    if i < |s| {
      assert s == s[..i] + [c] + s[i + 1..];
    } else {
      assert s[..i] == s;
    }
    if c !in a && s == a + [c] + b {
      SplitOnceUndoes(a, c, b);
    }
  }

  lemma NoDirectiveIff(t: string)
    ensures ParseDirective(t).NoDirective? <==> !IsDirective(t)
    ensures IsPlain(t) ==> !IsDirective(t)
  {
    hide ValidUsername, Hex.HexDecodeUtf8, SplitOnce;
    assert ARGON2_DIRECTIVE_PREFIX[0] == '#';
  }

  /** A line binds a user to a password exactly if it is neither empty nor a comment and says so. */
  lemma PlainBindsIff(line: string, user: string, password: string, phcOk: string -> bool)
    ensures MeaningOf(line, phcOk) == Bind(user, Plain(password)) <==>
            IsPlain(Trim(line)) && user != "" && SaysPlain(Trim(line), user, password)
  {
    var t := Trim(line);
    hide Trim, ParseDirective;
    NoDirectiveIff(t);
    var split := SplitOnce(t, ':');
    if split.Some? {
      SplitOnceIff(t, ':', split.value.0, split.value.1);
    }
    hide SplitOnce;
    if SaysPlain(t, user, password) {
      var name :| ':' !in name && Trim(name) == user && t == name + ":" + password;
      assert t == name + [':'] + password;
      SplitOnceIff(t, ':', name, password);
    }
  }

  /** It binds a user to a hash exactly if it says so, the name is acceptable and so is the hash. */
  lemma HashBindsIff(line: string, user: string, hash: string, phcOk: string -> bool)
    ensures MeaningOf(line, phcOk) == Bind(user, Argon2(hash)) <==>
            SaysHashed(Trim(line), user, hash) && ValidUsername(user) && phcOk(hash)
  {
    var t := Trim(line);
    hide Trim, ValidUsername, SaysHashed, PlainMeaning;
    DirectiveIff(t, user, hash);
    PlainIsPlain(t);
  }

  lemma PlainIsPlain(t: string)
    ensures PlainMeaning(t).Bind? ==> PlainMeaning(t).credential.Plain?
  {
  }

  /** A text in four parts, seen from its first. */
  lemma InParts(t: string, prefix: string, digits: string, hash: string)
    ensures t == prefix + digits + ":" + hash <==> prefix <= t && t[|prefix|..] == digits + [':'] + hash
  {
    var rest := digits + [':'] + hash;
    assert prefix + digits + ":" + hash == prefix + rest;
    if prefix <= t {
      assert t == prefix + t[|prefix|..];
    }
    assert (prefix + rest)[|prefix|..] == rest;
  }

  lemma SaysHashedIff(t: string, user: string, hash: string)
    ensures SaysHashed(t, user, hash) <==>
            && IsDirective(t)
            && var split := SplitOnce(t[|ARGON2_DIRECTIVE_PREFIX|..], ':');
               split.Some? && split.value.1 == hash && Hex.HexDecodeUtf8(split.value.0) == Hex.Ok(user)
  {
    hide Hex.HexDecodeUtf8, Hex.HexText, Utf8.Encode, Ascii.Lower, SplitOnce;
    if SaysHashed(t, user, hash) {
      var digits :| && ':' !in digits && Ascii.Lower(digits) == Hex.HexText(Utf8.Encode(user))
                    && t == ARGON2_DIRECTIVE_PREFIX + digits + ":" + hash;
      InParts(t, ARGON2_DIRECTIVE_PREFIX, digits, hash);
      SplitOnceIff(t[|ARGON2_DIRECTIVE_PREFIX|..], ':', digits, hash);
      Hex.HexNamesExactly(digits, user);
    }
    if IsDirective(t) {
      var split := SplitOnce(t[|ARGON2_DIRECTIVE_PREFIX|..], ':');
      if split.Some? {
        var (digits, phc) := split.value;
        SplitOnceIff(t[|ARGON2_DIRECTIVE_PREFIX|..], ':', digits, phc);
        InParts(t, ARGON2_DIRECTIVE_PREFIX, digits, phc);
        Hex.HexNamesExactly(digits, user);
      }
    }
  }

  lemma DirectiveIff(t: string, user: string, hash: string)
    ensures ParseDirective(t) == Directive(user, hash) <==> SaysHashed(t, user, hash) && ValidUsername(user)
  {
    hide ValidUsername, Hex.HexDecodeUtf8, SaysHashed, SplitOnce;
    SaysHashedIff(t, user, hash);
  }

  /** The line is an entry that gives this user this credential. */
  ghost predicate Says(line: string, user: string, credential: Credential, phcOk: string -> bool) {
    match credential
    case Plain(password) => IsPlain(Trim(line)) && user != "" && SaysPlain(Trim(line), user, password)
    case Argon2(hash) => SaysHashed(Trim(line), user, hash) && ValidUsername(user) && phcOk(hash)
  }

  lemma SaysIsMeaning(line: string, user: string, credential: Credential, phcOk: string -> bool)
    ensures Says(line, user, credential, phcOk) <==> MeaningOf(line, phcOk) == Bind(user, credential)
  {
    hide MeaningOf, SaysPlain, SaysHashed, Trim, ValidUsername;
    match credential
    case Plain(password) => PlainBindsIff(line, user, password, phcOk);
    case Argon2(hash) => HashBindsIff(line, user, hash, phcOk);
  }

  /** The last line that gives the user a credential gives it this one. */
  ghost predicate SaysLast(ls: seq<string>, user: string, credential: Credential, phcOk: string -> bool) {
    exists i :: && 0 <= i < |ls| && Says(ls[i], user, credential, phcOk)
                && forall j, c :: i < j < |ls| ==> !Says(ls[j], user, c, phcOk)
  }

  lemma SaysBinds(line: string, user: string, credential: Credential, phcOk: string -> bool)
    requires Says(line, user, credential, phcOk)
    ensures Binds(line, user, phcOk)
  {
    hide Says, MeaningOf;
    SaysIsMeaning(line, user, credential, phcOk);
  }

  lemma LastBindingSays(ls: seq<string>, i: int, user: string, phcOk: string -> bool)
    requires LastBinding(ls, phcOk, i, user)
    ensures SaysLast(ls, user, MeaningOf(ls[i], phcOk).credential, phcOk)
  {
    hide Says, MeaningOf;
    SaysIsMeaning(ls[i], user, MeaningOf(ls[i], phcOk).credential, phcOk);
    forall j, c | i < j < |ls| ensures !Says(ls[j], user, c, phcOk) {
      if Says(ls[j], user, c, phcOk) {
        SaysBinds(ls[j], user, c, phcOk);
      }
    }
  }

  lemma SaysLastUnique(ls: seq<string>, user: string, c: Credential, d: Credential, phcOk: string -> bool)
    requires SaysLast(ls, user, c, phcOk) && SaysLast(ls, user, d, phcOk)
    ensures c == d && exists l :: l in ls && Binds(l, user, phcOk)
  {
    hide Says, Binds, MeaningOf;
    var i :| && 0 <= i < |ls| && Says(ls[i], user, c, phcOk)
             && forall k, x :: i < k < |ls| ==> !Says(ls[k], user, x, phcOk);
    var j :| && 0 <= j < |ls| && Says(ls[j], user, d, phcOk)
             && forall k, x :: j < k < |ls| ==> !Says(ls[k], user, x, phcOk);
    assert i == j;
    SaysIsMeaning(ls[i], user, c, phcOk);
    SaysIsMeaning(ls[i], user, d, phcOk);
    SaysBinds(ls[i], user, c, phcOk);
  }

  /** A text that loads gives each user the credential of the last line that is an entry of that user. */
  lemma DatabaseIs(text: string, user: string, credential: Credential, phcOk: string -> bool)
    requires Parse(text, phcOk).Parsed?
    ensures var users := Parse(text, phcOk).users;
            user in users && users[user] == credential <==> SaysLast(Lines(text), user, credential, phcOk)
  {
    var ls, users := Lines(text), Parse(text, phcOk).users;
    hide MeaningOf, SaysLast, Lines, Binds, ParseLines;
    if SaysLast(ls, user, credential, phcOk) {
      SaysLastUnique(ls, user, credential, credential, phcOk);
    }
    BoundBySomeLine(ls, user, phcOk);
    if user in users {
      var i := LastBindingWins(ls, user, phcOk);
      LastBindingSays(ls, i, user, phcOk);
      if SaysLast(ls, user, credential, phcOk) {
        SaysLastUnique(ls, user, credential, users[user], phcOk);
      }
    }
  }

  /** The lines without meaning, and the three kinds of bad ones. */
  lemma OtherMeanings(line: string, phcOk: string -> bool)
    ensures var m, t := MeaningOf(line, phcOk), Trim(line);
            && (m == Skip <==> !IsPlain(t) && !IsDirective(t))
            && (m == Bad(ExpectedColon) <==> IsPlain(t) && ':' !in t)
            && (m == Bad(EmptyUsername) <==> t != "" && t[0] == ':')
            && (m == Bad(InvalidArgon2) <==>
                  IsDirective(t) && !exists user, hash ::
                    SaysHashed(t, user, hash) && ValidUsername(user) && phcOk(hash))
  {
    var t := Trim(line);
    TrimIsTrimmed(line);
    hide Trim, ParseDirective, ValidUsername, SaysHashed;
    NoDirectiveIff(t);
    if IsDirective(t) {
      BadDirective(line, phcOk);
    } else if IsPlain(t) {
      BadPlain(t);
    }
  }

  lemma BadDirective(line: string, phcOk: string -> bool)
    requires IsDirective(Trim(line))
    ensures MeaningOf(line, phcOk) == Bad(InvalidArgon2) <==>
            !exists user, hash :: SaysHashed(Trim(line), user, hash) && ValidUsername(user) && phcOk(hash)
    ensures MeaningOf(line, phcOk).Bind? || MeaningOf(line, phcOk) == Bad(InvalidArgon2)
  {
    var t := Trim(line);
    hide Trim, ParseDirective, ValidUsername, SaysHashed, PlainMeaning, IsDirective;
    NoDirectiveIff(t);
    if MeaningOf(line, phcOk).Bind? {
      var d := ParseDirective(t);
      DirectiveIff(t, d.user, d.phc);
    }
    if exists user, hash :: SaysHashed(t, user, hash) && ValidUsername(user) && phcOk(hash) {
      var user, hash :| SaysHashed(t, user, hash) && ValidUsername(user) && phcOk(hash);
      DirectiveIff(t, user, hash);
    }
  }

  /** In trimmed text, only nothing before the first colon is an empty name. */
  lemma BadPlain(t: string)
    requires IsPlain(t) && Trimmed(t)
    ensures PlainMeaning(t) == Bad(ExpectedColon) <==> ':' !in t
    ensures PlainMeaning(t) == Bad(EmptyUsername) <==> t[0] == ':'
  {
    var split := SplitOnce(t, ':');
    SplitOnceIff(t, ':', "", t[1..]);
    if split.Some? {
      var name := split.value.0;
      SplitOnceIff(t, ':', name, split.value.1);
      NoNameIff(name, t);
      if t[0] == ':' {
        assert t == "" + [':'] + t[1..];
      }
    }
  }

  lemma NoNameIff(name: string, t: string)
    requires name <= t && t != "" && !IsWhite(t[0])
    ensures Trim(name) == "" <==> name == ""
  {
    if name != "" {
      assert name[0] == t[0];
      assert TrimStart(name) == name;
      TrimEndKeeps(name);
    }
  }

  lemma {:induction false} TrimEndKeeps(s: string)
    requires s != "" && !IsWhite(s[0])
    ensures TrimEnd(s) != ""
  {
    if IsWhite(s[|s| - 1]) {
      TrimEndKeeps(s[..|s| - 1]);
    }
  }

  /** The names that can be written down in plain text: trimmed, not empty, no colon, no leading hash sign. */
  lemma PlainNamesIff(user: string, password: string, phcOk: string -> bool)
    requires Trimmed(user + ":" + password)
    ensures MeaningOf(user + ":" + password, phcOk) == Bind(user, Plain(password)) <==>
            user != "" && Trimmed(user) && ':' !in user && user[0] != '#'
  {
    var line := user + ":" + password;
    TrimIsTrimmed(line);
    TrimIsTrimmed(user);
    hide Trim, MeaningOf;
    PlainBindsIff(line, user, password, phcOk);
    if user != "" && SaysPlain(line, user, password) {
      var name :| ':' !in name && Trim(name) == user && line == name + ":" + password;
      assert |name| == |user| && name == line[..|user|] && user == line[..|user|];
    }
  }

  /** The characters that would break a line or an entry, or end a C string. */
  const FORBIDDEN := {':', '\n', '\r', '\0'}

  /** A field of RFC 1929 has its length in one byte. */
  predicate FitsField(s: string) {
    |Utf8.Encode(s)| < 256
  }

  /** Who can be given a line: a name with something other than white space at both ends and nothing forbidden. */
  lemma GeneratesIff(user: string, password: string, hash: string)
    ensures HashUserLine(user, password, hash).Some? <==>
            && user != "" && !IsWhite(user[0]) && !IsWhite(user[|user| - 1])
            && (forall i :: 0 <= i < |user| ==> user[i] !in FORBIDDEN)
            && FitsField(user) && FitsField(password)
  {
    TrimIsTrimmed(user);
    hide Trim, Hex.HexText, Utf8.Encode;
  }
}
