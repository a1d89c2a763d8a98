/** The response patterns of the client class and what `pattern.match(buffer)`
    yields for each of them.  Every pattern is anchored at both ends, so a
    pattern either matches the whole buffer or not at all. */
module Responses {
  import opened Wrappers
  import opened Decimal

  /** `\s` of Python 2's `re` on a byte string: space, tab, newline, carriage
      return, vertical tab, form feed. */
  predicate IsSpace(c: char) {
    c == ' ' || c == '\t' || c == '\n' || c == '\r' || c == '\U{0B}' || c == '\U{0C}'
  }

  predicate NoSpace(s: string) {
    forall i :: 0 <= i < |s| ==> !IsSpace(s[i])
  }

  predicate NoNewline(s: string) {
    forall i :: 0 <= i < |s| ==> s[i] != '\n'
  }

  /** The seven compiled patterns, named as the class names them. */
  datatype Pattern =
    | SetRes1     // the line STORED, captured as group 1
    | SetRes2     // the line NOT_STORED, captured as group 1
    | GetRes1     // the line END, captured as group 1
    | GetRes2     // a VALUE header line, one payload line, the line END
    | GetRes3     // the line NOT_FOUND, captured as group 1
    | DeleteRes1  // the line NOT_FOUND, no group
    | DeleteRes2  // the line DELETED, no group

  /** A match object: the pattern that matched and its groups, where
      `groups[i]` is what Python's `m.group(i + 1)` returns. */
  datatype Match = Match(pattern: Pattern, groups: seq<string>)

  /** `^line$` matches `s`: Python's `$` matches at the end of the string and
      also just before a newline that ends it. */
  predicate IsLine(s: string, line: string) {
    s == line || s == line + "\n"
  }

  /** One way of reading a buffer as a VALUE response: the three characters
      matched by `\s`, the captured key and flags, the declared length (matched
      but neither captured nor checked), the captured payload, and whether
      `$` matched before a final newline. */
  datatype ValueParts = ValueParts(
    sep1: char, key: string, sep2: char, flags: string, sep3: char,
    length: string, payload: string, finalNewline: bool)

  /** The buffer a reading spells: `VALUE`, the separators and fields of the
      header, the line break, the payload and the END trailer. */
  function RenderValue(v: ValueParts): (s: string) {
    ValueBody(v) + Trailer(v.finalNewline)
  }

  /** The header and payload line of a reading, without the trailer. */
  function ValueBody(v: ValueParts): (s: string) {
    Header(v) + "\r\n" + v.payload
  }

  /** The header line of a reading, without its line break. */
  function Header(v: ValueParts): (h: string) {
    "VALUE" + Join(FieldsOf(v))
  }

  function FieldsOf(v: ValueParts): (fs: seq<Field>) {
    [Field(v.sep1, v.key), Field(v.sep2, v.flags), Field(v.sep3, v.length)]
  }

  /** The readings the VALUE pattern admits: separators matched by `\s`, a key
      of one or more characters other than newline, two runs of digits, and a
      payload without newline. */
  predicate RegexParts(v: ValueParts) {
    && IsSpace(v.sep1) && IsSpace(v.sep2) && IsSpace(v.sep3)
    && 0 < |v.key| && NoNewline(v.key)
    && 0 < |v.flags| && IsDigits(v.flags)
    && 0 < |v.length| && IsDigits(v.length)
    && NoNewline(v.payload)
  }

  /** The readings this model recognises: those whose key has no whitespace,
      as the protocol demands of keys. */
  predicate WellFormed(v: ValueParts) {
    RegexParts(v) && NoSpace(v.key)
  }

  /** The first index at or after `i` holding whitespace, or the end. */
  function SkipNonSpace(s: string, i: nat): (e: nat)
    requires i <= |s|
    ensures i <= e <= |s|
    ensures forall x :: i <= x < e ==> !IsSpace(s[x])
    ensures e < |s| ==> IsSpace(s[e])
    decreases |s| - i
  {
    if i == |s| || IsSpace(s[i]) then i else SkipNonSpace(s, i + 1)
  }

  /** One field of the VALUE header: the whitespace character before it and
      the run of other characters that follows. */
  datatype Field = Field(sep: char, token: string)

  function Join(fs: seq<Field>): (s: string) {
    if fs == [] then "" else [fs[0].sep] + fs[0].token + Join(fs[1..])
  }

  /** A field as the VALUE pattern reads it: `\s` and then a maximal
      non-empty run of non-whitespace. */
  predicate FieldOk(f: Field) {
    IsSpace(f.sep) && 0 < |f.token| && NoSpace(f.token)
  }

  /** Every field of `fs` is as the pattern reads it. */
  predicate FieldsOk(fs: seq<Field>) {
    fs == [] || (FieldOk(fs[0]) && FieldsOk(fs[1..]))
  }

  /** What may follow a field: nothing, or whitespace that ends it. */
  predicate EndsField(rest: string) {
    rest == [] || IsSpace(rest[0])
  }

  /** Read one field off the front of `t` and return it with what follows. */
  function ReadField(t: string): (r: Option<(Field, string)>) {
    if t == [] || !IsSpace(t[0]) then None
    else
      var e := SkipNonSpace(t, 1);
      if e == 1 then None else Some((Field(t[0], t[1..e]), t[e..]))
  }

  /** Read `n` fields off the front of `t`; return them and what follows. */
  function ReadFields(t: string, n: nat): (r: Option<(seq<Field>, string)>)
    ensures r.Some? ==> |r.value.0| == n
    decreases n
  {
    if n == 0 then Some(([], t))
    else
      match ReadField(t)
      case None => None
      case Some((f, t')) =>
        match ReadFields(t', n - 1)
        case None => None
        case Some((fs, rest)) => Some(([f] + fs, rest))
  }

  /** The VALUE pattern on a buffer: strip the END trailer (with the optional
      final newline `$` allows), then read the header and the payload line. */
  function MatchValue(s: string): (r: Option<ValueParts>)
    ensures r.Some? ==> IsDigits(r.value.flags)
  {
    match StripTrailer(s)
    case None => None
    case Some((b, nl)) => MatchValueBody(b, nl)
  }

  /** The line END closing a VALUE response, with the final newline `$`
      lets through when `nl` holds. */
  function Trailer(nl: bool): (t: string) {
    if nl then "\r\nEND\r\n\n" else "\r\nEND\r\n"
  }

  function StripTrailer(s: string): (r: Option<(string, bool)>) {
    if 7 <= |s| && s[|s| - 7..] == Trailer(false) then Some((s[..|s| - 7], false))
    else if 8 <= |s| && s[|s| - 8..] == Trailer(true) then Some((s[..|s| - 8], true))
    else None
  }

  /** The word VALUE and three fields: the key, the flags digits and the
      length digits, which are read and otherwise ignored; then the end of
      the header line and a payload line without newline. */
  function MatchValueBody(b: string, nl: bool): (r: Option<ValueParts>)
    ensures r.Some? ==> IsDigits(r.value.flags)
  {
    if |b| < 5 || b[..5] != "VALUE" then None
    else
      match ReadFields(b[5..], 3)
      case None => None
      case Some((fs, rest)) =>
        if IsDigits(fs[1].token) && IsDigits(fs[2].token)
           && 2 <= |rest| && rest[..2] == "\r\n" && NoNewline(rest[2..])
        then Some(ValueParts(fs[0].sep, fs[0].token, fs[1].sep, fs[1].token, fs[2].sep, fs[2].token, rest[2..], nl))
        else None
  }

  /** The one line a pattern other than the VALUE pattern matches. */
  function Line(p: Pattern): (line: string)
    requires p != GetRes2
    ensures 0 < |line| && line[|line| - 1] == '\n' && NoNewline(line[..|line| - 1])
  {
    match p
    case SetRes1 => "STORED\r\n"
    case SetRes2 => "NOT_STORED\r\n"
    case GetRes1 => "END\r\n"
    case GetRes3 => "NOT_FOUND\r\n"
    case DeleteRes1 => "NOT_FOUND\r\n"
    case DeleteRes2 => "DELETED\r\n"
  }

  /** The groups of such a pattern: the word of its line, or none for the
      two DELETE patterns. */
  function LineGroups(p: Pattern): (gs: seq<string>)
    requires p != GetRes2
  {
    match p
    case SetRes1 => ["STORED"]
    case SetRes2 => ["NOT_STORED"]
    case GetRes1 => ["END"]
    case GetRes3 => ["NOT_FOUND"]
    case DeleteRes1 => []
    case DeleteRes2 => []
  }

  /** `pattern.match(s)` for each of the seven patterns. */
  function MatchPattern(p: Pattern, s: string): (r: Option<Match>)
    ensures r.Some? ==> r.value.pattern == p
  {
    if p == GetRes2 then
      (match MatchValue(s)
       case Some(v) => Some(Match(p, ["VALUE", v.key, v.flags, v.payload]))
       case None => None)
    else if IsLine(s, Line(p)) then Some(Match(p, LineGroups(p)))
    else None
  }

  /** `pattern.match(s)` as a function of the pattern. */
  function Matcher(s: string): (f: Pattern -> Option<Match>) {
    p => MatchPattern(p, s)
  }

  /** The inner loop of the framer: the match of the first pattern in `ps`
      that matches `s`. */
  function FirstMatch(ps: seq<Pattern>, s: string): (r: Option<Match>)
    ensures r.None? <==> forall i :: 0 <= i < |ps| ==> MatchPattern(ps[i], s).None?
    ensures r.Some? ==> exists i :: 0 <= i < |ps| && MatchPattern(ps[i], s) == r
                           && forall j :: 0 <= j < i ==> MatchPattern(ps[j], s).None?
  {
    var f := Matcher(s);
    FirstSomeSpec(f, ps, 0);
    assert forall i :: 0 <= i < |ps| ==> f(ps[i]) == MatchPattern(ps[i], s);
    FirstSome(f, ps, 0)
  }

  /** The first non-None value of `f` over `xs`, scanning from index `i`. */
  function FirstSome<X, Y>(f: X -> Option<Y>, xs: seq<X>, i: nat): (r: Option<Y>)
    requires i <= |xs|
    decreases |xs| - i
  {
    if i == |xs| then None
    else if f(xs[i]).Some? then f(xs[i])
    else FirstSome(f, xs, i + 1)
  }

  /** The scan from `i` finds nothing exactly when `f` is None on every
      element from `i` on, and otherwise returns `f` of the first element
      where it is not. */
  lemma {:induction false} FirstSomeSpec<X, Y>(f: X -> Option<Y>, xs: seq<X>, i: nat)
    requires i <= |xs|
    ensures FirstSome(f, xs, i).None? <==> forall j :: i <= j < |xs| ==> f(xs[j]).None?
    ensures FirstSome(f, xs, i).Some? ==>
              exists j :: i <= j < |xs| && f(xs[j]) == FirstSome(f, xs, i)
                          && forall l :: i <= l < j ==> f(xs[l]).None?
    decreases |xs| - i
  {
    if i < |xs| && f(xs[i]).None? {
      FirstSomeSpec(f, xs, i + 1);
    }
  }

  /** The reply a memcache server sends for a hit: single spaces, the flags
      and the payload's length in decimal. */
  function ValueResponse(key: string, flags: nat, payload: string): (s: string) {
    RenderValue(ValueParts(' ', key, ' ', Format(flags), ' ', Format(|payload|), payload, false))
  }

  /** The header spelled out field by field. */
  lemma JoinThree(fs: seq<Field>)
    requires |fs| == 3
    ensures Join(fs) == [fs[0].sep] + fs[0].token + [fs[1].sep] + fs[1].token + [fs[2].sep] + fs[2].token
  {
    assert fs[1..][1..][1..] == [];
    assert Join(fs[1..][1..]) == [fs[2].sep] + fs[2].token + Join([]);
  }

  lemma NoSpaceNoNewline(s: string)
    requires NoSpace(s)
    ensures NoNewline(s)
  {
    forall x | 0 <= x < |s| ensures s[x] != '\n' {
      assert !IsSpace(s[x]);
    }
  }

  lemma MatchValueBodySound(b: string, nl: bool)
    requires MatchValueBody(b, nl).Some?
    ensures var v := MatchValueBody(b, nl).value;
            WellFormed(v) && v.finalNewline == nl && ValueBody(v) == b
  {
    var (fs, rest) := ReadFields(b[5..], 3).value;
    var v := MatchValueBody(b, nl).value;
    assert FieldsOf(v) == fs && v.payload == rest[2..];
    ReadFieldsSound(b[5..], 3);
    FieldsOkThree(fs);
    NoSpaceNoNewline(v.key);
    BodyShape(b, Join(fs), rest);
  }

  lemma BodyShape(b: string, header: string, rest: string)
    requires 5 <= |b| && b[..5] == "VALUE" && b[5..] == header + rest
    requires 2 <= |rest| && rest[..2] == "\r\n"
    ensures b == "VALUE" + header + "\r\n" + rest[2..]
  {
    assert b == b[..5] + b[5..];
    assert rest == rest[..2] + rest[2..];
  }

  /** Whatever the VALUE pattern captures is a well-formed reading of the
      whole buffer. */
  lemma MatchValueSound(s: string)
    requires MatchValue(s).Some?
    ensures WellFormed(MatchValue(s).value)
    ensures RenderValue(MatchValue(s).value) == s
  {
    var (b, nl) := StripTrailer(s).value;
    StripTrailerSound(s);
    MatchValueBodySound(b, nl);
  }

  lemma StripTrailerSound(s: string)
    ensures StripTrailer(s).Some? ==> s == StripTrailer(s).value.0 + Trailer(StripTrailer(s).value.1)
  {
    if StripTrailer(s).Some? {
      var n := |s| - |StripTrailer(s).value.0|;
      assert s == s[..|s| - n] + s[|s| - n..];
    }
  }

  lemma StripTrailerComplete(b: string, nl: bool)
    ensures StripTrailer(b + Trailer(nl)) == Some((b, nl))
  {
    var s := b + Trailer(nl);
    if nl {
      assert s[|s| - 2] == '\n';
      assert s[|s| - 8..] == Trailer(true) && s[..|s| - 8] == b;
    } else {
      assert s[|s| - 7..] == Trailer(false) && s[..|s| - 7] == b;
    }
  }

  lemma SkipNonSpaceAt(s: string, i: nat, e: nat)
    requires i <= e <= |s|
    requires forall x :: i <= x < e ==> !IsSpace(s[x])
    requires e < |s| ==> IsSpace(s[e])
    ensures SkipNonSpace(s, i) == e
  {
  }

  lemma ReadFieldSound(t: string)
    ensures ReadField(t).Some? ==>
              var (f, rest) := ReadField(t).value;
              FieldOk(f) && EndsField(rest) && t == [f.sep] + f.token + rest
  {
    if ReadField(t).Some? {
      var e := SkipNonSpace(t, 1);
      assert t == [t[0]] + t[1..e] + t[e..];
    }
  }

  lemma ReadFieldComplete(f: Field, rest: string)
    requires FieldOk(f) && EndsField(rest)
    ensures ReadField([f.sep] + f.token + rest) == Some((f, rest))
  {
    var t := [f.sep] + f.token + rest;
    var e := 1 + |f.token|;
    assert t[1..e] == f.token && t[e..] == rest;
    SkipNonSpaceAt(t, 1, e);
  }

  /** What ReadFields returns is a run of fields that spells the front of the
      input, followed by something that ends the last of them. */
  lemma {:induction false} ReadFieldsSound(t: string, n: nat)
    ensures ReadFields(t, n).Some? ==>
              var (fs, rest) := ReadFields(t, n).value;
              && FieldsOk(fs)
              && (0 < n ==> EndsField(rest))
              && t == Join(fs) + rest
    decreases n
  {
    if n > 0 && ReadFields(t, n).Some? {
      var (f, t') := ReadField(t).value;
      var (fs, rest) := ReadFields(t', n - 1).value;
      assert ReadFields(t, n).value == ([f] + fs, rest);
      ReadFieldSound(t);
      ReadFieldsSound(t', n - 1);
      var gs := [f] + fs;
      assert gs[0] == f && gs[1..] == fs;
      JoinCons(gs, rest);
    }
  }

  lemma {:induction false} FieldsOkEach(fs: seq<Field>)
    ensures FieldsOk(fs) <==> forall i :: 0 <= i < |fs| ==> FieldOk(fs[i])
  {
    if fs != [] {
      FieldsOkEach(fs[1..]);
      assert forall i :: 0 < i < |fs| ==> fs[1..][i - 1] == fs[i];
    }
  }

  lemma FieldsOkThree(fs: seq<Field>)
    requires |fs| == 3
    ensures FieldsOk(fs) <==> FieldOk(fs[0]) && FieldOk(fs[1]) && FieldOk(fs[2])
  {
    var t1 := fs[1..];
    var t2 := t1[1..];
    assert t1[0] == fs[1] && t2[0] == fs[2] && t2[1..] == [];
    assert FieldsOk(t2) <==> FieldOk(fs[2]);
    assert FieldsOk(t1) <==> FieldOk(fs[1]) && FieldsOk(t2);
  }

  lemma JoinCons(fs: seq<Field>, rest: string)
    requires fs != []
    ensures Join(fs) + rest == [fs[0].sep] + fs[0].token + (Join(fs[1..]) + rest)
  {
  }

  /** Fields followed by something that ends a field begin with whitespace
      or are empty. */
  lemma JoinEndsField(fs: seq<Field>, rest: string)
    requires fs != [] ==> IsSpace(fs[0].sep)
    requires EndsField(rest)
    ensures EndsField(Join(fs) + rest)
  {
    if fs != [] {
      JoinCons(fs, rest);
    } else {
      assert Join(fs) + rest == rest;
    }
  }

  /** Fields written out are read back, as long as what follows them ends
      the last one. */
  lemma {:induction false} ReadFieldsJoin(fs: seq<Field>, rest: string)
    requires FieldsOk(fs)
    requires EndsField(rest)
    ensures ReadFields(Join(fs) + rest, |fs|) == Some((fs, rest))
  {
    if fs == [] {
      assert Join(fs) + rest == rest;
    } else {
      var tail := Join(fs[1..]) + rest;
      JoinCons(fs, rest);
      ReadFieldsJoin(fs[1..], rest);
      JoinEndsField(fs[1..], rest);
      ReadFieldComplete(fs[0], tail);
      ReadFieldsCons([fs[0].sep] + fs[0].token + tail, fs, tail, rest);
    }
  }

  lemma ReadFieldsCons(t: string, fs: seq<Field>, t': string, rest: string)
    requires fs != []
    requires ReadField(t) == Some((fs[0], t'))
    requires ReadFields(t', |fs| - 1) == Some((fs[1..], rest))
    ensures ReadFields(t, |fs|) == Some((fs, rest))
  {
    assert [fs[0]] + fs[1..] == fs;
  }

  lemma DigitsNoSpace(s: string)
    requires IsDigits(s)
    ensures NoSpace(s)
  {
    forall x | 0 <= x < |s| ensures !IsSpace(s[x]) {
      assert IsDigit(s[x]);
    }
  }

  lemma MatchValueBodyComplete(v: ValueParts)
    requires WellFormed(v)
    ensures MatchValueBody(ValueBody(v), v.finalNewline) == Some(v)
  {
    var b := ValueBody(v);
    var rest := "\r\n" + v.payload;
    var fs := FieldsOf(v);
    assert b == "VALUE" + (Join(fs) + rest);
    assert ReadFields(b[5..], 3) == Some((fs, rest)) by {
      assert b[5..] == Join(fs) + rest;
      DigitsNoSpace(v.flags);
      DigitsNoSpace(v.length);
      FieldsOkThree(fs);
      assert rest[0] == '\r';
      ReadFieldsJoin(fs, rest);
    }
    assert rest[..2] == "\r\n" && rest[2..] == v.payload;
  }

  /** What the matcher makes of the word VALUE, three fields as they are read,
      a line break and whatever follows: a reading when the last two fields
      are digits and the rest holds no newline, and nothing otherwise. */
  lemma MatchValueOfFields(fs: seq<Field>, rest: string, nl: bool)
    requires |fs| == 3 && FieldsOk(fs) && 2 <= |rest| && rest[..2] == "\r\n"
    ensures MatchValue("VALUE" + Join(fs) + rest + Trailer(nl))
              == if IsDigits(fs[1].token) && IsDigits(fs[2].token) && NoNewline(rest[2..])
                 then Some(ValueParts(fs[0].sep, fs[0].token, fs[1].sep, fs[1].token, fs[2].sep, fs[2].token, rest[2..], nl))
                 else None
  {
    var b := "VALUE" + Join(fs) + rest;
    StripTrailerComplete(b, nl);
    assert b[..5] == "VALUE" && b[5..] == Join(fs) + rest;
    ReadFieldsJoin(fs, rest);
  }

  /** Every well-formed reading is recognised, with exactly its parts: the
      VALUE matcher and RenderValue are inverse on well-formed readings. */
  lemma MatchValueComplete(v: ValueParts)
    requires WellFormed(v)
    ensures MatchValue(RenderValue(v)) == Some(v)
  {
    StripTrailerComplete(ValueBody(v), v.finalNewline);
    MatchValueBodyComplete(v);
  }

  /** The length of the longest run at the end of `s` of characters that
      `p` holds for. */
  function TrailingRun(p: char -> bool, s: string): (n: nat)
    ensures n <= |s|
  {
    if s == [] || !p(s[|s| - 1]) then 0 else 1 + TrailingRun(p, s[..|s| - 1])
  }

  lemma {:induction false} TrailingRunOf(p: char -> bool, a: string, c: char, d: string)
    requires !p(c)
    requires forall i :: 0 <= i < |d| ==> p(d[i])
    ensures TrailingRun(p, a + [c] + d) == |d|
    decreases |d|
  {
    var s := a + [c] + d;
    if d == [] {
      assert s[|s| - 1] == c;
    } else {
      var d' := d[..|d| - 1];
      assert s[|s| - 1] == d[|d| - 1];
      assert s[..|s| - 1] == a + [c] + d';
      assert forall i :: 0 <= i < |d'| ==> p(d'[i]) by {
        forall i | 0 <= i < |d'| ensures p(d'[i]) {
          assert d'[i] == d[i];
        }
      }
      TrailingRunOf(p, a, c, d');
    }
  }

  /** A string splits in one way only into a front, a character `p` does not
      hold for, and a run of characters it holds for. */
  lemma SplitLastRun(p: char -> bool, a1: string, c1: char, d1: string, a2: string, c2: char, d2: string)
    requires !p(c1) && forall i :: 0 <= i < |d1| ==> p(d1[i])
    requires !p(c2) && forall i :: 0 <= i < |d2| ==> p(d2[i])
    requires a1 + [c1] + d1 == a2 + [c2] + d2
    ensures a1 == a2 && c1 == c2 && d1 == d2
  {
    TrailingRunOf(p, a1, c1, d1);
    TrailingRunOf(p, a2, c2, d2);
    var s := a1 + [c1] + d1;
    var k := |s| - |d1|;
    assert d1 == s[k..] == d2;
    assert c1 == s[k - 1] == c2;
    assert a1 == s[..k - 1] == a2;
  }

  /** Which trailer ends a buffer, and what precedes it, is determined by the
      buffer. */
  lemma TrailerUnique(b1: string, nl1: bool, b2: string, nl2: bool)
    requires b1 + Trailer(nl1) == b2 + Trailer(nl2)
    ensures nl1 == nl2 && b1 == b2
  {
    var s := b1 + Trailer(nl1);
    assert s[|s| - 2] == Trailer(nl1)[|Trailer(nl1)| - 2];
    assert s[|s| - 2] == Trailer(nl2)[|Trailer(nl2)| - 2];
    assert b1 == s[..|s| - |Trailer(nl1)|] == b2;
  }

  lemma BodySplit(v: ValueParts)
    ensures ValueBody(v) == (Header(v) + "\r") + ['\n'] + v.payload
  {
  }

  lemma HeaderSplit(v: ValueParts)
    ensures Header(v) == "VALUE" + [v.sep1] + v.key + [v.sep2] + v.flags + [v.sep3] + v.length
  {
    JoinThree(FieldsOf(v));
  }

  lemma StripLast(a: string, b: string, c: char)
    requires a + [c] == b + [c]
    ensures a == b
  {
    assert a == (a + [c])[..|a|];
  }

  /** The VALUE pattern admits at most one reading of a buffer: the payload
      is what follows the last line break before the trailer, the length and
      the flags are the digit runs at the end of the header, and the key is
      what remains. */
  lemma ValueReadingUnique(v: ValueParts, w: ValueParts)
    requires RegexParts(v) && RegexParts(w)
    requires RenderValue(v) == RenderValue(w)
    ensures v == w
  {
    TrailerUnique(ValueBody(v), v.finalNewline, ValueBody(w), w.finalNewline);
    BodySplit(v);
    BodySplit(w);
    SplitLastRun(c => c != '\n', Header(v) + "\r", '\n', v.payload, Header(w) + "\r", '\n', w.payload);
    StripLast(Header(v), Header(w), '\r');
    HeaderSplit(v);
    HeaderSplit(w);
    SplitLastRun(IsDigit, "VALUE" + [v.sep1] + v.key + [v.sep2] + v.flags, v.sep3, v.length,
                 "VALUE" + [w.sep1] + w.key + [w.sep2] + w.flags, w.sep3, w.length);
    SplitLastRun(IsDigit, "VALUE" + [v.sep1] + v.key, v.sep2, v.flags,
                 "VALUE" + [w.sep1] + w.key, w.sep2, w.flags);
    var h := "VALUE" + [v.sep1] + v.key;
    assert v.sep1 == h[5] && v.key == h[6..];
    assert h == "VALUE" + [w.sep1] + w.key;
    assert w.sep1 == h[5] && w.key == h[6..];
  }

  /** If the matcher reads a buffer that has a reading the pattern admits,
      it reads exactly that one, and its key is whitespace-free. */
  lemma MatchValueOnly(w: ValueParts)
    requires RegexParts(w)
    ensures MatchValue(RenderValue(w)).Some? ==> MatchValue(RenderValue(w)) == Some(w) && NoSpace(w.key)
  {
    var s := RenderValue(w);
    if MatchValue(s).Some? {
      MatchValueSound(s);
      ValueReadingUnique(MatchValue(s).value, w);
    }
  }

  /** On every buffer the VALUE pattern admits, the matcher returns the
      pattern's own reading when its key is whitespace-free, and nothing when
      it is not. */
  lemma MatchValueRegex(w: ValueParts)
    requires RegexParts(w)
    ensures MatchValue(RenderValue(w)) == (if NoSpace(w.key) then Some(w) else None)
  {
    MatchValueOnly(w);
    if NoSpace(w.key) {
      MatchValueComplete(w);
    }
  }

  /** The groups a match of each pattern carries: for the VALUE pattern the
      word VALUE, the key, the flags digits and the payload; for the others
      the word of their line, or nothing. */
  predicate Shaped(m: Match) {
    if m.pattern == GetRes2 then
      |m.groups| == 4 && m.groups[0] == "VALUE" && IsDigits(m.groups[2])
    else
      m.groups == LineGroups(m.pattern)
  }

  lemma MatchShaped(p: Pattern, s: string)
    ensures MatchPattern(p, s).Some? ==> Shaped(MatchPattern(p, s).value)
  {
    if p == GetRes2 && MatchValue(s).Some? {
      MatchValueSound(s);
    }
  }

  /** What the scan returns is a match of one of the patterns it was given,
      with that pattern's groups. */
  lemma FirstMatchShaped(ps: seq<Pattern>, s: string)
    ensures FirstMatch(ps, s).Some? ==> Shaped(FirstMatch(ps, s).value) && FirstMatch(ps, s).value.pattern in ps
  {
    if FirstMatch(ps, s).Some? {
      var i :| 0 <= i < |ps| && MatchPattern(ps[i], s) == FirstMatch(ps, s);
      MatchShaped(ps[i], s);
    }
  }

  /** No proper non-empty prefix of `r` is matched by any pattern in `ps`: the
      framer cannot stop early while `r` arrives. */
  predicate PrefixFree(ps: seq<Pattern>, r: string) {
    forall k :: 0 < k < |r| ==> FirstMatch(ps, r[..k]).None?
  }

  /** Every match ends in a line break. */
  lemma MatchEndsInNewline(p: Pattern, s: string)
    ensures MatchPattern(p, s).Some? ==> 0 < |s| && s[|s| - 1] == '\n'
  {
    if p == GetRes2 {
      StripTrailerSound(s);
      TrailerEndsInNewline(s);
    } else {
      LineEndsInNewline(s, Line(p));
    }
  }

  lemma TrailerEndsInNewline(s: string)
    ensures StripTrailer(s).Some? ==> 0 < |s| && s[|s| - 1] == '\n'
  {
    if StripTrailer(s).Some? {
      var (b, nl) := StripTrailer(s).value;
      StripTrailerSound(s);
      assert s[|s| - 1] == Trailer(nl)[|Trailer(nl)| - 1];
    }
  }

  lemma LineEndsInNewline(s: string, line: string)
    requires 0 < |line| && line[|line| - 1] == '\n'
    ensures IsLine(s, line) ==> 0 < |s| && s[|s| - 1] == '\n'
  {
  }

  /** A pattern that is one fixed line starts with that line's first letter;
      none of those lines starts with the letter V. */
  lemma LineInitial(p: Pattern, s: string)
    ensures MatchPattern(p, s).Some? && p != GetRes2 ==> 0 < |s| && s[0] != 'V'
  {
    if p != GetRes2 {
      assert Line(p)[0] != 'V';
      assert IsLine(s, Line(p)) ==> s[0] == Line(p)[0];
    }
  }

  /** A line that ends where its only newline is can be framed only as a
      whole: no proper prefix of it matches. */
  lemma LinePrefixFree(ps: seq<Pattern>, line: string)
    requires 0 < |line| && NoNewline(line[..|line| - 1])
    ensures PrefixFree(ps, line)
  {
    forall k | 0 < k < |line| ensures FirstMatch(ps, line[..k]).None? {
      var q := line[..k];
      assert q[k - 1] == line[..|line| - 1][k - 1];
      forall i | 0 <= i < |ps| ensures MatchPattern(ps[i], q).None? {
        MatchEndsInNewline(ps[i], q);
      }
    }
  }

  /** The number of newline characters in `s`. */
  function Newlines(s: string): (n: nat) {
    if s == [] then 0 else (if s[0] == '\n' then 1 else 0) + Newlines(s[1..])
  }

  lemma {:induction false} NewlinesConcat(a: string, b: string)
    ensures Newlines(a + b) == Newlines(a) + Newlines(b)
  {
    if a == [] {
      assert a + b == b;
    } else {
      assert (a + b)[1..] == a[1..] + b;
      NewlinesConcat(a[1..], b);
    }
  }

  lemma {:induction false} NoNewlineCount(s: string)
    requires NoNewline(s)
    ensures Newlines(s) == 0
  {
    if s != [] {
      assert NoNewline(s[1..]) by {
        forall x | 0 <= x < |s[1..]| ensures s[1..][x] != '\n' {
          assert s[1..][x] == s[x + 1];
        }
      }
      NoNewlineCount(s[1..]);
    }
  }

  lemma NewlinesOfLineBreak()
    ensures Newlines("\r\n") == 1
    ensures Newlines(Trailer(false)) == 2 && Newlines(Trailer(true)) == 3
  {
    assert "\r\n"[1..] == "\n" && "\n"[1..] == "";
    NewlinesConcat("\r\n", "END\r\n");
    NewlinesConcat("END", "\r\n");
    NewlinesConcat(Trailer(false), "\n");
    NoNewlineCount("END");
    assert "\r\n" + "END\r\n" == Trailer(false);
    assert "END" + "\r\n" == "END\r\n";
    assert Trailer(false) + "\n" == Trailer(true);
  }

  /** A VALUE match spans at least three lines. */
  lemma ValueMatchNewlines(s: string)
    ensures MatchValue(s).Some? ==> Newlines(s) >= 3
  {
    if MatchValue(s).Some? {
      MatchValueSound(s);
      var v := MatchValue(s).value;
        var head := Header(v);
      NewlinesOfLineBreak();
      NewlinesConcat(ValueBody(v), Trailer(v.finalNewline));
      NewlinesConcat(head + "\r\n", v.payload);
      NewlinesConcat(head, "\r\n");
    }
  }

  lemma DigitsNoNewline(s: string)
    requires IsDigits(s)
    ensures NoNewline(s)
  {
    forall x | 0 <= x < |s| ensures s[x] != '\n' {
      assert IsDigit(s[x]);
    }
  }

  /** Fields whose separators and tokens hold no newline join to a string
      without one. */
  lemma {:induction false} JoinNewlines(fs: seq<Field>)
    requires forall i :: 0 <= i < |fs| ==> fs[i].sep != '\n' && NoNewline(fs[i].token)
    ensures Newlines(Join(fs)) == 0
  {
    if fs != [] {
      JoinNewlines(fs[1..]);
      NoNewlineCount(fs[0].token);
      NoNewlineCount([fs[0].sep]);
      NewlinesConcat([fs[0].sep] + fs[0].token, Join(fs[1..]));
      NewlinesConcat([fs[0].sep], fs[0].token);
    }
  }

  /** A reading none of whose parts holds a newline: its rendering spans
      three lines, or four with the tolerated final newline. */
  predicate LineFree(v: ValueParts) {
    && v.sep1 != '\n' && v.sep2 != '\n' && v.sep3 != '\n'
    && NoNewline(v.key) && NoNewline(v.flags) && NoNewline(v.length) && NoNewline(v.payload)
  }

  lemma ValueNewlines(v: ValueParts)
    requires LineFree(v)
    ensures Newlines(RenderValue(v)) == if v.finalNewline then 4 else 3
  {
    var head := Header(v);
    NewlinesOfLineBreak();
    JoinNewlines(FieldsOf(v));
    NoNewlineCount("VALUE");
    NoNewlineCount(v.payload);
    NewlinesConcat("VALUE", Join(FieldsOf(v)));
    NewlinesConcat(ValueBody(v), Trailer(v.finalNewline));
    NewlinesConcat(head + "\r\n", v.payload);
    NewlinesConcat(head, "\r\n");
  }

  /** The server's hit reply spans exactly three lines. */
  lemma ValueResponseNewlines(key: string, flags: nat, payload: string)
    requires NoSpace(key) && NoNewline(payload)
    ensures Newlines(ValueResponse(key, flags, payload)) == 3
  {
    var v := ValueParts(' ', key, ' ', Format(flags), ' ', Format(|payload|), payload, false);
    NoSpaceNoNewline(key);
    DigitsNoNewline(v.flags);
    DigitsNoNewline(v.length);
    ValueNewlines(v);
  }

  /** A proper prefix of a string that ends in a newline has fewer newlines. */
  lemma PrefixNewlines(r: string, k: nat)
    requires k < |r| && r[|r| - 1] == '\n'
    ensures Newlines(r[..k]) < Newlines(r)
  {
    var t := r[k..];
    assert r == r[..k] + t;
    NewlinesConcat(r[..k], t);
    assert t == t[..|t| - 1] + ['\n'];
    NewlinesConcat(t[..|t| - 1], ['\n']);
  }

  /** A VALUE reply without newlines inside its parts and without the
      tolerated final newline is framed only as a whole, whatever the
      chunking: no proper prefix of it matches any pattern. */
  lemma ValuePrefixFree(ps: seq<Pattern>, v: ValueParts)
    requires LineFree(v) && !v.finalNewline
    ensures PrefixFree(ps, RenderValue(v))
  {
    var r := RenderValue(v);
    ValueNewlines(v);
    assert r[0] == 'V' && r[|r| - 1] == '\n';
    forall k | 0 < k < |r| ensures FirstMatch(ps, r[..k]).None? {
      var q := r[..k];
      PrefixNewlines(r, k);
      ValueMatchNewlines(q);
      forall i | 0 <= i < |ps| ensures MatchPattern(ps[i], q).None? {
        LineInitial(ps[i], q);
      }
    }
  }

  /** In particular the server's hit reply is. */
  lemma ValueResponsePrefixFree(ps: seq<Pattern>, key: string, flags: nat, payload: string)
    requires NoSpace(key) && NoNewline(payload)
    ensures PrefixFree(ps, ValueResponse(key, flags, payload))
  {
    var v := ValueParts(' ', key, ' ', Format(flags), ' ', Format(|payload|), payload, false);
    NoSpaceNoNewline(key);
    DigitsNoNewline(v.flags);
    DigitsNoNewline(v.length);
    ValuePrefixFree(ps, v);
  }
}
