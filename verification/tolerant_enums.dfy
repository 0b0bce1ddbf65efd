/**
 The rewrite that re-points every generated enum class at a tolerant base: a text goes in, class
 headers are found and replaced in it, and a block with the needed bases is put above the first
 class. A block from an earlier run is stripped first.
 */
module TolerantEnums {
  import opened Common

  // ---- class headers ----

  /** What the header pattern sees of a text: a character, or a whole class header line. */
  datatype Piece = Lit(c: char) | Class(name: string, bases: string)

  predicate Word(c: char) {
    'a' <= c <= 'z' || 'A' <= c <= 'Z' || '0' <= c <= '9' || c == '_'
  }

  predicate EndsLine(s: string) {
    s == [] || s[0] == '\n'
  }

  /** A name of word characters, and bases up to the first closing parenthesis. */
  predicate WellFormed(p: Piece) {
    p.Class? ==> p.name != [] && (forall c <- p.name :: Word(c)) && ')' !in p.bases
  }

  /** `bases` and "):" before `rest`. */
  function Close(bases: string, rest: string): (s: string)
    ensures |s| == |bases| + 2 + |rest|
  {
    if bases == [] then [')', ':'] + rest else [bases[0]] + Close(bases[1..], rest)
  }

  /** `name`, "(", `bases` and "):" before `rest`. */
  function Open(name: string, bases: string, rest: string): (s: string)
    ensures |s| == |name| + 3 + |bases| + |rest|
  {
    if name == [] then ['('] + Close(bases, rest) else [name[0]] + Open(name[1..], bases, rest)
  }

  /** A piece's text before `rest`. */
  function Onto(p: Piece, rest: string): (s: string)
    ensures |s| > |rest|
  {
    match p
    case Lit(c) => [c] + rest
    case Class(name, bases) => "class " + Open(name, bases, rest)
  }

  function Render(ps: seq<Piece>): string {
    if ps == [] then [] else Onto(ps[0], Render(ps[1..]))
  }

  /** What follows `pattern` in a text that begins with it. */
  function Past(pattern: string, s: string): (r: Option<string>)
    ensures r.Some? ==> |r.value| + |pattern| == |s|
  {
    if pattern == [] then Some(s)
    else if s == [] || s[0] != pattern[0] then None
    else Past(pattern[1..], s[1..])
  }

  /** The bases and what follows them, when the first ")" is followed by ":" and the end of the line. */
  function BasesOf(s: string): (r: Option<(string, string)>)
    ensures r.Some? ==> s == Close(r.value.0, r.value.1) && ')' !in r.value.0 && EndsLine(r.value.1)
  {
    if s == [] then None
    else if s[0] == ')' then if |s| >= 2 && s[1] == ':' && EndsLine(s[2..]) then Some(([], s[2..])) else None
    else match BasesOf(s[1..]) case Some((bases, rest)) => Some(([s[0]] + bases, rest)) case None => None
  }

  /** The name, the bases in parentheses after it, and what follows. */
  function NameOf(s: string): (r: Option<(string, string, string)>)
    ensures r.Some? ==> var (name, bases, rest) := r.value;
                        s == Open(name, bases, rest) && WellFormed(Class("x" + name, bases)) && EndsLine(rest)
  {
    if s == [] then None
    else if s[0] == '(' then match BasesOf(s[1..]) case Some((bases, rest)) => Some(([], bases, rest)) case None => None
    else if Word(s[0]) then
      match NameOf(s[1..])
      case Some((name, bases, rest)) => Some(([s[0]] + name, bases, rest))
      case None => None
    else None
  }

  /** The class header a line-beginning text begins with, if any, and what follows it. */
  function HeaderOf(s: string): (r: Option<(Piece, string)>)
    ensures r.Some? ==> r.value.0.Class? && WellFormed(r.value.0) && EndsLine(r.value.1) && |r.value.1| < |s|
  {
    match Past("class ", s)
    case None => None
    case Some(t) =>
      match NameOf(t)
      case None => None
      case Some((name, bases, rest)) =>
        if name == [] then None else assert forall c <- name :: c in "x" + name; Some((Class(name, bases), rest))
  }

  /** The text cut at its class headers, left to right; a header begins a line and none overlaps another. */
  function Lex(s: string, lineStart: bool): seq<Piece>
    decreases |s|
  {
    if s == [] then []
    else if lineStart && HeaderOf(s).Some? then [HeaderOf(s).value.0] + Lex(HeaderOf(s).value.1, false)
    else [Lit(s[0])] + Lex(s[1..], s[0] == '\n')
  }

  /** The cuts of a text: no header is missed, and each cut header is one. */
  ghost predicate Lexed(ps: seq<Piece>, lineStart: bool) {
    ps != [] ==>
      match ps[0]
      case Lit(c) => (lineStart ==> HeaderOf(Render(ps)).None?) && Lexed(ps[1..], c == '\n')
      case Class(_, _) => lineStart && WellFormed(ps[0]) && EndsLine(Render(ps[1..])) && Lexed(ps[1..], false)
  }

  lemma {:induction false} PastIsPrefix(pattern: string, s: string)
    ensures Past(pattern, pattern + s) == Some(s)
  {
    if pattern != [] {
      assert (pattern + s)[1..] == pattern[1..] + s;
      PastIsPrefix(pattern[1..], s);
    } else {
      assert pattern + s == s;
    }
  }

  lemma {:induction false} PastRejoins(pattern: string, s: string)
    requires Past(pattern, s).Some?
    ensures s == pattern + Past(pattern, s).value
  {
    if pattern != [] {
      PastRejoins(pattern[1..], s[1..]);
    }
  }

  lemma {:induction false} BasesFound(bases: string, rest: string)
    requires ')' !in bases && EndsLine(rest)
    ensures BasesOf(Close(bases, rest)) == Some((bases, rest))
  {
    var s := Close(bases, rest);
    if bases == [] {
      assert s[2..] == rest;
    } else {
      assert s[1..] == Close(bases[1..], rest) && bases == [bases[0]] + bases[1..];
      BasesFound(bases[1..], rest);
    }
  }

  lemma {:induction false} NameFound(name: string, bases: string, rest: string)
    requires (forall c <- name :: Word(c)) && ')' !in bases && EndsLine(rest)
    ensures NameOf(Open(name, bases, rest)) == Some((name, bases, rest))
  {
    var s := Open(name, bases, rest);
    if name == [] {
      assert s[1..] == Close(bases, rest);
      BasesFound(bases, rest);
    } else {
      assert s[1..] == Open(name[1..], bases, rest) && name == [name[0]] + name[1..];
      assert name[0] in name && forall c <- name[1..] :: c in name;
      NameFound(name[1..], bases, rest);
    }
  }

  lemma {:induction false} HeaderFound(p: Piece, rest: string)
    requires p.Class? && WellFormed(p) && EndsLine(rest)
    ensures HeaderOf(Onto(p, rest)) == Some((p, rest))
  {
    PastIsPrefix("class ", Open(p.name, p.bases, rest));
    NameFound(p.name, p.bases, rest);
  }

  lemma {:induction false} HeaderRejoins(s: string)
    requires HeaderOf(s).Some?
    ensures s == Onto(HeaderOf(s).value.0, HeaderOf(s).value.1)
  {
    PastRejoins("class ", s);
  }

  /** Cutting a text loses nothing, and misses no header. */
  lemma {:induction false} LexIsLexed(s: string, lineStart: bool)
    ensures Render(Lex(s, lineStart)) == s && Lexed(Lex(s, lineStart), lineStart)
    decreases |s|
  {
    var ps := Lex(s, lineStart);
    if s != [] {
      if lineStart && HeaderOf(s).Some? {
        HeaderRejoins(s);
        LexIsLexed(HeaderOf(s).value.1, false);
        assert ps[1..] == Lex(HeaderOf(s).value.1, false);
      } else {
        LexIsLexed(s[1..], s[0] == '\n');
        assert ps[1..] == Lex(s[1..], s[0] == '\n');
        assert s == [s[0]] + s[1..];
      }
    }
  }

  /** There is only one way to cut a text. */
  lemma {:induction false} LexIsUnique(ps: seq<Piece>, lineStart: bool)
    requires Lexed(ps, lineStart)
    ensures Lex(Render(ps), lineStart) == ps
  {
    if ps != [] {
      var rest := Render(ps[1..]);
      assert ps == [ps[0]] + ps[1..];
      match ps[0] {
        case Lit(c) =>
          LexIsUnique(ps[1..], c == '\n');
          assert Render(ps)[1..] == rest;
        case Class(_, _) =>
          LexIsUnique(ps[1..], false);
          HeaderFound(ps[0], rest);
      }
    }
  }

  // ---- re-pointing the bases ----

  datatype Kind = StrKind | StrMixinKind | PlainKind | IntKind

  /** The base as the generator spells it. */
  function Spelling(k: Kind): string {
    match k
    case StrKind => "StrEnum"
    case StrMixinKind => "str, Enum"
    case PlainKind => "Enum"
    case IntKind => "IntEnum"
  }

  function Tolerant(k: Kind): string {
    match k
    case StrKind => "_TolerantStrEnum"
    case StrMixinKind => "_TolerantStrMixinEnum"
    case PlainKind => "_TolerantEnum"
    case IntKind => "_TolerantIntEnum"
  }

  predicate Space(c: char) {
    c == ' ' || '\t' <= c <= '\r' || '\U{1C}' <= c <= '\U{1F}'
  }

  function LStrip(s: string): (t: string)
    ensures |t| <= |s|
  {
    if s != [] && Space(s[0]) then LStrip(s[1..]) else s
  }

  function RStripBy(s: string, drop: char -> bool): (t: string)
    ensures |t| <= |s|
  {
    if s != [] && drop(s[|s| - 1]) then RStripBy(s[..|s| - 1], drop) else s
  }

  function Trim(s: string): string {
    RStripBy(LStrip(s), Space)
  }

  function SplitCommas(s: string): (parts: seq<string>)
    ensures parts != []
  {
    if s == [] then [[]]
    else
      var rest := SplitCommas(s[1..]);
      if s[0] == ',' then [[]] + rest else [[s[0]] + rest[0]] + rest[1..]
  }

  function JoinTrimmed(parts: seq<string>): string
    requires parts != []
  {
    if |parts| == 1 then Trim(parts[0]) else Trim(parts[0]) + ", " + JoinTrimmed(parts[1..])
  }

  /** The bases with the spacing of the generator's spellings. */
  function Normal(bases: string): string {
    JoinTrimmed(SplitCommas(bases))
  }

  predicate Occurs(pattern: string, s: string) {
    Past(pattern, s).Some? || (s != [] && Occurs(pattern, s[1..]))
  }

  predicate IsEnum(bases: string) {
    Occurs("Enum", bases) || Occurs("Flag", bases)
  }

  /** The kind of base a class has or is given. */
  function KindOf(bases: string): Option<Kind> {
    var b := Normal(bases);
    if b == Tolerant(StrKind) || b == Spelling(StrKind) then Some(StrKind)
    else if b == Tolerant(StrMixinKind) || b == Spelling(StrMixinKind) then Some(StrMixinKind)
    else if b == Tolerant(PlainKind) || b == Spelling(PlainKind) then Some(PlainKind)
    else if b == Tolerant(IntKind) || b == Spelling(IntKind) then Some(IntKind)
    else None
  }

  predicate IsTolerant(bases: string) {
    KindOf(bases).Some? && Normal(bases) == Tolerant(KindOf(bases).value)
  }

  /** An enum whose base the script cannot make tolerant. */
  predicate Unsupported(p: Piece) {
    p.Class? && IsEnum(Normal(p.bases)) && KindOf(p.bases).None?
  }

  predicate Enum(p: Piece) {
    p.Class? && IsEnum(Normal(p.bases)) && KindOf(p.bases).Some?
  }

  /** A known spelling is replaced; a tolerant base, and every other class, is kept as it is. */
  function Retarget(p: Piece): Piece {
    if Enum(p) && !IsTolerant(p.bases) then p.(bases := Tolerant(KindOf(p.bases).value)) else p
  }

  function Retargeted(ps: seq<Piece>): (qs: seq<Piece>)
    ensures |qs| == |ps|
  {
    if ps == [] then [] else [Retarget(ps[0])] + Retargeted(ps[1..])
  }

  predicate Bare(s: string) {
    forall c <- s :: c != ',' && !Space(c) && c != ')' && c != '#'
  }

  lemma {:induction false} BareSplitsWhole(s: string)
    requires Bare(s)
    ensures SplitCommas(s) == [s]
  {
    if s != [] {
      assert s == [s[0]] + s[1..] && s[0] in s && forall c <- s[1..] :: c in s;
      BareSplitsWhole(s[1..]);
    }
  }

  lemma {:induction false} BareIsNormal(s: string)
    requires Bare(s)
    ensures Normal(s) == s
  {
    BareSplitsWhole(s);
    if s != [] {
      assert s[0] in s && s[|s| - 1] in s;
    }
  }

  lemma {:induction false} OccursAtTheEnd(front: string, pattern: string)
    ensures Occurs(pattern, front + pattern)
  {
    if front == [] {
      PastIsPrefix(pattern, []);
      assert front + pattern == pattern + [];
    } else {
      OccursAtTheEnd(front[1..], pattern);
      assert (front + pattern)[1..] == front[1..] + pattern;
    }
  }

  lemma {:induction false} OccursAtTheStart(pattern: string, rest: string)
    ensures Occurs(pattern, pattern + rest)
  {
    PastIsPrefix(pattern, rest);
  }

  lemma {:induction false} TolerantSpelt(k: Kind)
    ensures Bare(Tolerant(k)) && Tolerant(k) == (match k
      case StrKind => "_TolerantStr" case StrMixinKind => "_TolerantStrMixin"
      case PlainKind => "_Tolerant" case IntKind => "_TolerantInt") + "Enum"
  {
  }

  /** A tolerant base is recognised as what it is, so a second run keeps it. */
  lemma {:induction false} TolerantIsKept(k: Kind)
    ensures IsTolerant(Tolerant(k)) && KindOf(Tolerant(k)) == Some(k) && IsEnum(Normal(Tolerant(k)))
  {
    hide Normal, Occurs, IsEnum, Bare;
    TolerantSpelt(k);
    BareIsNormal(Tolerant(k));
    TolerantIsEnum(k);
    TolerantAreDistinct(k);
    hide Tolerant, Spelling;
  }

  lemma {:induction false} TolerantIsEnum(k: Kind)
    ensures IsEnum(Tolerant(k))
  {
    TolerantSpelt(k);
    OccursAtTheEnd(Tolerant(k)[..|Tolerant(k)| - 4], "Enum");
    assert Tolerant(k) == Tolerant(k)[..|Tolerant(k)| - 4] + "Enum";
  }

  lemma {:induction false} TolerantAreDistinct(k: Kind)
    ensures forall l: Kind :: Tolerant(k) == Tolerant(l) ==> k == l
    ensures forall l: Kind :: Tolerant(k) != Spelling(l)
  {
  }

  // ---- re-pointing moves no header ----

  lemma {:induction false} BasesThroughName(name: string, bases: string, rest: string)
    requires (forall c <- name :: Word(c)) && ')' !in bases && EndsLine(rest)
    ensures BasesOf(Open(name, bases, rest)).Some?
  {
    var s := Open(name, bases, rest);
    if name == [] {
      assert s[1..] == Close(bases, rest);
      BasesFound(bases, rest);
    } else {
      assert s[1..] == Open(name[1..], bases, rest) && name[0] in name && forall c <- name[1..] :: c in name;
      BasesThroughName(name[1..], bases, rest);
    }
  }

  lemma {:induction false} BasesThrough(front: string, s: string)
    requires ')' !in front
    ensures BasesOf(front + s).Some? <==> BasesOf(s).Some?
  {
    if front == [] {
      assert front + s == s;
    } else {
      assert (front + s)[1..] == front[1..] + s;
      BasesThrough(front[1..], s);
    }
  }

  /** An open parenthesis in the lines above a class header is closed by that header, if by nothing before. */
  lemma {:induction false} BasesThroughClass(p: Piece, rest: string)
    requires p.Class? && WellFormed(p) && EndsLine(rest)
    ensures BasesOf(Onto(p, rest)).Some?
  {
    BasesThroughName(p.name, p.bases, rest);
    BasesThrough("class ", Open(p.name, p.bases, rest));
  }

  lemma {:induction false} RetargetedCons(ps: seq<Piece>)
    requires ps != []
    ensures Retargeted(ps)[0] == Retarget(ps[0]) && Retargeted(ps)[1..] == Retargeted(ps[1..])
    ensures Render(Retargeted(ps)) == Onto(Retarget(ps[0]), Render(Retargeted(ps[1..])))
  {
  }

  /** Off a line start, the next character is not touched. */
  lemma {:induction false} NextCharStays(ps: seq<Piece>)
    requires Lexed(ps, false)
    ensures EndsLine(Render(ps)) == EndsLine(Render(Retargeted(ps)))
    ensures Render(ps) == [] <==> Render(Retargeted(ps)) == []
    ensures Render(ps) != [] ==> Render(ps)[0] == Render(Retargeted(ps))[0]
    ensures Render(ps) != [] && Render(ps)[0] != '\n' ==>
              EndsLine(Render(ps)[1..]) == EndsLine(Render(Retargeted(ps))[1..])
  {
    if ps != [] {
      RetargetedCons(ps);
      var c, rest := ps[0].c, ps[1..];
      assert Render(ps)[1..] == Render(rest) && Render(Retargeted(ps))[1..] == Render(Retargeted(rest));
      if c != '\n' && rest != [] {
        RetargetedCons(rest);
      }
    }
  }

  lemma {:induction false} BasesStable(ps: seq<Piece>, lineStart: bool)
    requires Lexed(ps, lineStart) && BasesOf(Render(Retargeted(ps))).Some?
    ensures BasesOf(Render(ps)).Some?
  {
    if ps != [] {
      RetargetedCons(ps);
      match ps[0] {
        case Lit(c) =>
          assert Render(ps)[1..] == Render(ps[1..]) && Render(Retargeted(ps))[1..] == Render(Retargeted(ps[1..]));
          if c == ')' {
            NextCharStays(ps[1..]);
            assert Render(ps)[2..] == Render(ps)[1..][1..];
            assert Render(Retargeted(ps))[2..] == Render(Retargeted(ps))[1..][1..];
          } else {
            BasesStable(ps[1..], c == '\n');
          }
        case Class(_, _) => BasesThroughClass(ps[0], Render(ps[1..]));
      }
    }
  }

  lemma {:induction false} NameStable(ps: seq<Piece>)
    requires Lexed(ps, false) && NameOf(Render(Retargeted(ps))).Some?
    ensures NameOf(Render(ps)).Some?
    ensures NameOf(Render(ps)).value.0 == [] <==> NameOf(Render(Retargeted(ps))).value.0 == []
  {
    RetargetedCons(ps);
    var c, rest := ps[0].c, ps[1..];
    assert Render(ps)[1..] == Render(rest) && Render(Retargeted(ps))[1..] == Render(Retargeted(rest));
    if c == '(' {
      BasesStable(rest, false);
    } else {
      NameStable(rest);
    }
  }

  lemma {:induction false} PastStable(pattern: string, ps: seq<Piece>, lineStart: bool)
    requires Lexed(ps, lineStart) && '\n' !in pattern && (ps != [] ==> ps[0].Lit?)
    requires Past(pattern, Render(Retargeted(ps))).Some?
    ensures |pattern| <= |ps| && Past(pattern, Render(ps)) == Some(Render(ps[|pattern|..]))
    ensures Past(pattern, Render(Retargeted(ps))) == Some(Render(Retargeted(ps[|pattern|..])))
    ensures pattern != [] ==> Lexed(ps[|pattern|..], false)
  {
    if pattern == [] {
      assert ps[0..] == ps;
    } else {
      RetargetedCons(ps);
      var rest := ps[1..];
      assert Render(ps)[1..] == Render(rest) && Render(Retargeted(ps))[1..] == Render(Retargeted(rest));
      assert pattern[0] in pattern && forall c <- pattern[1..] :: c in pattern;
      PastStable(pattern[1..], rest, false);
      assert rest[|pattern| - 1..] == ps[|pattern|..];
    }
  }

  lemma {:induction false} HeaderStable(ps: seq<Piece>)
    requires Lexed(ps, true) && ps != [] && ps[0].Lit?
    ensures HeaderOf(Render(Retargeted(ps))).None?
  {
    var s := Render(Retargeted(ps));
    if HeaderOf(s).Some? {
      PastStable("class ", ps, true);
      NameStable(ps[6..]);
    }
  }

  lemma {:induction false} RetargetKeepsForm(p: Piece)
    ensures p.Class? ==> Retarget(p).Class? && Retarget(p).name == p.name
    ensures WellFormed(p) ==> WellFormed(Retarget(p))
  {
    if p.Class? && KindOf(p.bases).Some? {
      TolerantSpelt(KindOf(p.bases).value);
    }
  }

  /** Re-pointing classes neither hides a header nor makes a new one: the cuts stay where they are. */
  lemma {:induction false} RetargetKeepsCuts(ps: seq<Piece>, lineStart: bool)
    requires Lexed(ps, lineStart)
    ensures Lexed(Retargeted(ps), lineStart)
  {
    if ps != [] {
      RetargetedCons(ps);
      match ps[0] {
        case Lit(c) =>
          RetargetKeepsCuts(ps[1..], c == '\n');
          if lineStart {
            HeaderStable(ps);
          }
        case Class(_, _) =>
          RetargetKeepsCuts(ps[1..], false);
          RetargetKeepsForm(ps[0]);
          NextCharStays(ps[1..]);
      }
    }
  }

  // ---- the lines above the first class ----

  /** `n` line feeds before `rest`. */
  function Gap(n: nat, rest: string): string {
    if n == 0 then rest else ['\n'] + Gap(n - 1, rest)
  }

  /** Literal pieces before others. */
  function Before(x: string, ps: seq<Piece>): seq<Piece> {
    if x == [] then ps else [Lit(x[0])] + Before(x[1..], ps)
  }

  lemma {:induction false} BeforeRenders(x: string, ps: seq<Piece>)
    ensures Render(Before(x, ps)) == x + Render(ps)
  {
    if x != [] {
      BeforeRenders(x[1..], ps);
      assert Before(x, ps)[1..] == Before(x[1..], ps);
      assert x + Render(ps) == [x[0]] + (x[1..] + Render(ps));
    }
  }

  lemma {:induction false} GapAdds(n: nat, rest: string)
    ensures Gap(n, rest) == Gap(n, []) + rest
  {
    if n > 0 {
      GapAdds(n - 1, rest);
    }
  }

  /** A pattern without a line feed is matched within the line. */
  lemma {:induction false} PastWithinLine(pattern: string, x: string, y: string)
    requires '\n' !in pattern && EndsLine(y)
    ensures Past(pattern, x + y) == match Past(pattern, x) { case Some(r) => Some(r + y) case None => None }
  {
    if pattern != [] && x != [] {
      assert (x + y)[1..] == x[1..] + y && forall c <- pattern[1..] :: c in pattern;
      PastWithinLine(pattern[1..], x[1..], y);
    } else if pattern != [] {
      assert x + y == y && pattern[0] in pattern;
    }
  }

  lemma {:induction false} BasesThroughGap(n: nat, rest: string)
    ensures BasesOf(Gap(n, rest)).Some? <==> BasesOf(rest).Some?
  {
    if n > 0 {
      BasesThroughGap(n - 1, rest);
    }
  }

  lemma {:induction false} BasesIgnoreGap(x: string, i: nat, j: nat, rest: string)
    requires i > 0 && j > 0
    ensures BasesOf(x + Gap(i, rest)).Some? <==> BasesOf(x + Gap(j, rest)).Some?
  {
    var s, t := x + Gap(i, rest), x + Gap(j, rest);
    if x == [] {
      assert s == Gap(i, rest) && t == Gap(j, rest);
      BasesThroughGap(i, rest);
      BasesThroughGap(j, rest);
    } else {
      assert s[1..] == x[1..] + Gap(i, rest) && t[1..] == x[1..] + Gap(j, rest);
      if x[0] != ')' {
        BasesIgnoreGap(x[1..], i, j, rest);
      }
    }
  }

  lemma {:induction false} NameIgnoresGap(x: string, i: nat, j: nat, rest: string)
    requires i > 0 && j > 0 && NameOf(x + Gap(i, rest)).Some?
    ensures NameOf(x + Gap(j, rest)).Some?
    ensures NameOf(x + Gap(j, rest)).value.0 == [] <==> NameOf(x + Gap(i, rest)).value.0 == []
  {
    var s, t := x + Gap(i, rest), x + Gap(j, rest);
    if x != [] {
      assert s[1..] == x[1..] + Gap(i, rest) && t[1..] == x[1..] + Gap(j, rest);
      if x[0] == '(' {
        BasesIgnoreGap(x[1..], i, j, rest);
      } else {
        NameIgnoresGap(x[1..], i, j, rest);
      }
    }
  }

  lemma {:induction false} HeaderIgnoresGap(x: string, i: nat, j: nat, rest: string)
    requires i > 0 && j > 0 && HeaderOf(x + Gap(j, rest)).Some?
    ensures HeaderOf(x + Gap(i, rest)).Some?
  {
    PastWithinLine("class ", x, Gap(i, rest));
    PastWithinLine("class ", x, Gap(j, rest));
    NameIgnoresGap(Past("class ", x).value, j, i, rest);
  }

  lemma {:induction false} GapIsCut(i: nat, ps: seq<Piece>, lineStart: bool)
    requires i > 0 && Lexed(ps, true)
    ensures Lexed(Before(Gap(i, []), ps), lineStart)
  {
    var x := Gap(i, []);
    BeforeRenders(x, ps);
    assert x[1..] == Gap(i - 1, []) && Before(x, ps)[1..] == Before(x[1..], ps);
    if i > 1 {
      GapIsCut(i - 1, ps, true);
    }
  }

  lemma {:induction false} GapIsCutBack(i: nat, ps: seq<Piece>, lineStart: bool)
    requires i > 0 && Lexed(Before(Gap(i, []), ps), lineStart)
    ensures Lexed(ps, true)
  {
    var x := Gap(i, []);
    assert x[1..] == Gap(i - 1, []) && Before(x, ps)[1..] == Before(x[1..], ps);
    if i > 1 {
      GapIsCutBack(i - 1, ps, true);
    }
  }

  /** The number of line feeds above the first class decides no header. */
  lemma {:induction false} CutsIgnoreGap(x: string, i: nat, j: nat, ps: seq<Piece>, lineStart: bool)
    requires i > 0 && j > 0 && Lexed(Before(x, Before(Gap(i, []), ps)), lineStart)
    ensures Lexed(Before(x, Before(Gap(j, []), ps)), lineStart)
  {
    if x == [] {
      GapIsCutBack(i, ps, lineStart);
      GapIsCut(j, ps, lineStart);
    } else {
      var a, b := Before(Gap(i, []), ps), Before(Gap(j, []), ps);
      assert Before(x, a)[1..] == Before(x[1..], a) && Before(x, b)[1..] == Before(x[1..], b);
      CutsIgnoreGap(x[1..], i, j, ps, x[0] == '\n');
      BeforeRenders(x, a);
      BeforeRenders(x, b);
      BeforeRenders(Gap(i, []), ps);
      BeforeRenders(Gap(j, []), ps);
      GapAdds(i, Render(ps));
      GapAdds(j, Render(ps));
      if lineStart && HeaderOf(Render(Before(x, b))).Some? {
        HeaderIgnoresGap(x, i, j, Render(ps));
      }
    }
  }

  /** The text above the first class, and the pieces from it on. */
  function Leading(ps: seq<Piece>): string {
    if ps == [] || ps[0].Class? then [] else [ps[0].c] + Leading(ps[1..])
  }

  function Onward(ps: seq<Piece>): (rest: seq<Piece>)
    ensures rest != [] ==> rest[0].Class?
  {
    if ps == [] || ps[0].Class? then ps else Onward(ps[1..])
  }

  lemma {:induction false} LeadingThenOnward(ps: seq<Piece>)
    ensures ps == Before(Leading(ps), Onward(ps))
  {
    if ps != [] && ps[0].Lit? {
      LeadingThenOnward(ps[1..]);
      assert ps == [ps[0]] + ps[1..];
      assert Leading(ps)[1..] == Leading(ps[1..]);
    }
  }

  lemma {:induction false} LeadingOfBefore(x: string, ps: seq<Piece>)
    requires ps != [] && ps[0].Class?
    ensures Leading(Before(x, ps)) == x && Onward(Before(x, ps)) == ps
  {
    if x != [] {
      LeadingOfBefore(x[1..], ps);
      assert Before(x, ps)[1..] == Before(x[1..], ps) && x == [x[0]] + x[1..];
    }
  }

  function LineFeed(c: char): bool {
    c == '\n'
  }

  function WithoutTrailingLines(s: string): string {
    RStripBy(s, LineFeed)
  }

  /** Stripping takes exactly the line feeds at the end. */
  lemma {:induction false} StripTakesAGap(s: string) returns (n: nat)
    ensures s == WithoutTrailingLines(s) + Gap(n, [])
    ensures WithoutTrailingLines(s) == [] || WithoutTrailingLines(s)[|WithoutTrailingLines(s)| - 1] != '\n'
  {
    if s != [] && LineFeed(s[|s| - 1]) {
      var front := s[..|s| - 1];
      var m := StripTakesAGap(front);
      n := m + 1;
      GapAdds(m, ['\n']);
      GapSnoc(m);
      assert s == front + ['\n'];
    } else {
      n := 0;
    }
  }

  lemma {:induction false} GapSnoc(n: nat)
    ensures Gap(n + 1, []) == Gap(n, []) + ['\n']
  {
    if n > 0 {
      GapSnoc(n - 1);
    }
  }

  lemma {:induction false} StripLeavesTheHead(x: string, n: nat)
    requires x == [] || x[|x| - 1] != '\n'
    ensures WithoutTrailingLines(x + Gap(n, [])) == x
  {
    var s := x + Gap(n, []);
    if n > 0 {
      GapSnoc(n - 1);
      assert s[..|s| - 1] == x + Gap(n - 1, []);
      StripLeavesTheHead(x, n - 1);
    } else {
      assert s == x;
    }
  }

  /** Re-spacing the lines above the first class to a gap of three keeps every cut. */
  lemma {:induction false} RespacedCuts(ps: seq<Piece>)
    requires Lexed(ps, true) && Onward(ps) != []
    ensures Lexed(Before(WithoutTrailingLines(Leading(ps)), Before(Gap(3, []), Onward(ps))), true)
  {
    var x, rest := Leading(ps), Onward(ps);
    var head := WithoutTrailingLines(x);
    var n := StripTakesAGap(x);
    LeadingThenOnward(ps);
    BeforeTwice(head, Gap(n, []), rest);
    if n == 0 {
      assert x == head;
      NoGapNoHead(x, rest, true);
      GapIsCut(3, rest, true);
    } else {
      CutsIgnoreGap(head, n, 3, rest, true);
    }
  }

  lemma {:induction false} BeforeTwice(x: string, y: string, ps: seq<Piece>)
    ensures Before(x + y, ps) == Before(x, Before(y, ps))
  {
    if x == [] {
      assert x + y == y;
    } else {
      assert (x + y)[1..] == x[1..] + y;
      BeforeTwice(x[1..], y, ps);
    }
  }

  /** A class begins a line: with no line feed before it, there is nothing before it. */
  lemma {:induction false} NoGapNoHead(x: string, ps: seq<Piece>, lineStart: bool)
    requires ps != [] && ps[0].Class? && Lexed(Before(x, ps), lineStart)
    requires x == [] || x[|x| - 1] != '\n'
    ensures x == [] && lineStart && Lexed(ps, true)
  {
    if x != [] {
      assert Before(x, ps)[1..] == Before(x[1..], ps);
      NoGapNoHead(x[1..], ps, x[0] == '\n');
    }
  }

  // ---- the injected block ----

  const BEGIN: string := "#" + BEGIN_COMMENT
  const BEGIN_COMMENT: string :=
    " --- BEGIN tolerant" + "-enum support (gener" + "ated by script/gen/" + "tolerant_enums.py) ---"
  const END: string := "#" + END_COMMENT
  const END_COMMENT: string := " --- END tolerant" + "-enum support ---"

  /** The markers, and the source of each tolerant base. */
  datatype Support = Support(
    begin: string, end: string, strSource: string, strMixinSource: string, plainSource: string, intSource: string)

  function Source(sup: Support, k: Kind): string {
    match k
    case StrKind => sup.strSource
    case StrMixinKind => sup.strMixinSource
    case PlainKind => sup.plainSource
    case IntKind => sup.intSource
  }

  /** A marker is a comment on one line. */
  predicate Marker(m: string) {
    m != [] && m[0] == '#' && '\n' !in m
  }

  /** The markers are markers, and no base's source holds the end marker. */
  ghost predicate Usable(sup: Support) {
    Marker(sup.begin) && Marker(sup.end) && forall k: Kind :: !Occurs(sup.end, Source(sup, k))
  }

  /** The text after the first occurrence of a pattern. */
  function After(pattern: string, s: string): (r: Option<string>)
    ensures r.Some? ==> |r.value| + |pattern| <= |s|
  {
    if Past(pattern, s).Some? then Past(pattern, s)
    else if s == [] then None
    else After(pattern, s[1..])
  }

  function WithoutLeadingLines(s: string): (t: string)
    ensures |t| <= |s|
  {
    if s != [] && s[0] == '\n' then WithoutLeadingLines(s[1..]) else s
  }

  /** A block the scan stands on: what follows its begin marker, when an end marker does. */
  function BlockAt(sup: Support, s: string): (rest: Option<string>)
    ensures rest.Some? ==> |rest.value| + |sup.begin| <= |s|
  {
    match Past(sup.begin, s)
    case None => None
    case Some(t) => match After(sup.end, t) case Some(rest) => Some(WithoutLeadingLines(rest)) case None => None
  }

  /** `strip_block`: every block goes, with the line feeds after it. */
  function StripBlock(sup: Support, s: string): string
    requires sup.begin != []
    decreases |s|
  {
    if s == [] then []
    else if BlockAt(sup, s).Some? then StripBlock(sup, BlockAt(sup, s).value)
    else [s[0]] + StripBlock(sup, s[1..])
  }

  function Sources(sup: Support, needed: seq<Kind>, rest: string): string {
    if needed == [] then rest else Source(sup, needed[0]) + Gap(3, Sources(sup, needed[1..], rest))
  }

  /** The block with its bases, three line feeds between its parts and after it, before `rest`. */
  function Block(sup: Support, needed: seq<Kind>, rest: string): string {
    sup.begin + Gap(3, Sources(sup, needed, sup.end + Gap(3, rest)))
  }

  // ---- the rewrite ----

  datatype Outcome = Rewritten(text: string, count: nat) | Rejected(name: string, bases: string)

  /** The bases in the order of their first use, after those already requested. */
  function Needed(ps: seq<Piece>, have: seq<Kind>): seq<Kind> {
    if ps == [] then have else Needed(ps[1..], Requested(ps[0], have))
  }

  function Requested(p: Piece, have: seq<Kind>): seq<Kind> {
    if Enum(p) && KindOf(p.bases).value !in have then have + [KindOf(p.bases).value] else have
  }

  function Count(ps: seq<Piece>): nat {
    if ps == [] then 0 else (if Enum(ps[0]) then 1 else 0) + Count(ps[1..])
  }

  function FirstUnsupported(ps: seq<Piece>): (p: Option<Piece>)
    ensures p.Some? ==> Unsupported(p.value)
  {
    if ps == [] then None else if Unsupported(ps[0]) then Some(ps[0]) else FirstUnsupported(ps[1..])
  }

  /** The text around its first class, with a block between. */
  function Assembled(sup: Support, body: string, needed: seq<Kind>): string {
    var cut := Lex(body, true);
    WithoutTrailingLines(Leading(cut)) + Gap(3, Block(sup, needed, Render(Onward(cut))))
  }

  function RewriteStripped(sup: Support, s: string): Outcome {
    var ps := Lex(s, true);
    var bad := FirstUnsupported(ps);
    if bad.Some? then Rejected(bad.value.name, Normal(bad.value.bases))
    else
      var body := Render(Retargeted(ps));
      if Count(ps) == 0 then Rewritten(body, 0) else Rewritten(Assembled(sup, body, Needed(ps, [])), Count(ps))
  }

  function RewriteOf(sup: Support, t: string): Outcome
    requires sup.begin != []
  {
    RewriteStripped(sup, StripBlock(sup, t))
  }

  // ---- stripping what was injected ----

  lemma {:induction false} OccursWithinLine(pattern: string, x: string, y: string)
    requires '\n' !in pattern && EndsLine(y) && pattern != []
    ensures Occurs(pattern, x + y) <==> Occurs(pattern, x) || Occurs(pattern, y)
  {
    PastWithinLine(pattern, x, y);
    if x == [] {
      assert x + y == y;
    } else {
      assert (x + y)[1..] == x[1..] + y;
      OccursWithinLine(pattern, x[1..], y);
    }
  }

  lemma {:induction false} AfterSkips(pattern: string, x: string, y: string)
    requires '\n' !in pattern && EndsLine(y) && pattern != [] && !Occurs(pattern, x)
    ensures After(pattern, x + y) == After(pattern, y)
  {
    PastWithinLine(pattern, x, y);
    if x == [] {
      assert x + y == y;
    } else {
      assert (x + y)[1..] == x[1..] + y;
      AfterSkips(pattern, x[1..], y);
    }
  }

  lemma {:induction false} AfterSkipsGap(pattern: string, n: nat, y: string)
    requires Marker(pattern)
    ensures After(pattern, Gap(n, y)) == After(pattern, y)
  {
    if n > 0 {
      AfterSkipsGap(pattern, n - 1, y);
      assert Gap(n, y)[1..] == Gap(n - 1, y);
    }
  }

  lemma {:induction false} AfterSources(sup: Support, needed: seq<Kind>, rest: string)
    requires Usable(sup)
    ensures After(sup.end, Sources(sup, needed, sup.end + rest)) == Some(rest)
  {
    if needed == [] {
      PastIsPrefix(sup.end, rest);
    } else {
      var more := Sources(sup, needed[1..], sup.end + rest);
      AfterSources(sup, needed[1..], rest);
      AfterSkips(sup.end, Source(sup, needed[0]), Gap(3, more));
      AfterSkipsGap(sup.end, 3, more);
    }
  }

  lemma {:induction false} LeadingLinesGo(n: nat, rest: string)
    requires rest == [] || rest[0] != '\n'
    ensures WithoutLeadingLines(Gap(n, rest)) == rest
  {
    if n > 0 {
      LeadingLinesGo(n - 1, rest);
      assert Gap(n, rest)[1..] == Gap(n - 1, rest);
    }
  }

  lemma {:induction false} StripSkips(sup: Support, x: string, y: string)
    requires Marker(sup.begin) && EndsLine(y) && !Occurs(sup.begin, x)
    ensures StripBlock(sup, x + y) == x + StripBlock(sup, y)
  {
    PastWithinLine(sup.begin, x, y);
    if x == [] {
      assert x + y == y;
    } else {
      assert (x + y)[1..] == x[1..] + y;
      StripSkips(sup, x[1..], y);
      assert x + StripBlock(sup, y) == [x[0]] + (x[1..] + StripBlock(sup, y));
    }
  }

  lemma {:induction false} StripSkipsGap(sup: Support, n: nat, y: string)
    requires Marker(sup.begin)
    ensures StripBlock(sup, Gap(n, y)) == Gap(n, StripBlock(sup, y))
  {
    if n > 0 {
      StripSkipsGap(sup, n - 1, y);
      assert Gap(n, y)[1..] == Gap(n - 1, y);
    }
  }

  /** Stripping an assembled text takes the block and leaves a gap of three. */
  lemma {:induction false} StripTakesTheBlock(sup: Support, head: string, needed: seq<Kind>, tail: string)
    requires Usable(sup) && !Occurs(sup.begin, head) && StripBlock(sup, tail) == tail
    requires tail != [] && tail[0] != '\n'
    ensures StripBlock(sup, head + Gap(3, Block(sup, needed, tail))) == head + Gap(3, tail)
  {
    var block := Block(sup, needed, tail);
    var inside := Gap(3, Sources(sup, needed, sup.end + Gap(3, tail)));
    StripSkips(sup, head, Gap(3, block));
    StripSkipsGap(sup, 3, block);
    PastIsPrefix(sup.begin, inside);
    AfterSources(sup, needed, Gap(3, tail));
    AfterSkipsGap(sup.end, 3, Sources(sup, needed, sup.end + Gap(3, tail)));
    LeadingLinesGo(3, tail);
    assert BlockAt(sup, block) == Some(tail);
  }

  // ---- header texts ----

  lemma {:induction false} CloseAppends(bases: string, rest: string)
    ensures Close(bases, rest) == Close(bases, []) + rest
  {
    if bases != [] {
      CloseAppends(bases[1..], rest);
    }
  }

  lemma {:induction false} ConsAppends(c: char, s: string, rest: string)
    ensures [c] + (s + rest) == [c] + s + rest
  {
  }

  lemma {:induction false} OpenAppends(name: string, bases: string, rest: string)
    ensures Open(name, bases, rest) == Open(name, bases, []) + rest
  {
    hide Close;
    if name == [] {
      CloseAppends(bases, rest);
      ConsAppends('(', Close(bases, []), rest);
    } else {
      OpenAppends(name[1..], bases, rest);
      ConsAppends(name[0], Open(name[1..], bases, []), rest);
    }
  }

  lemma {:induction false} OntoAppends(p: Piece, rest: string)
    ensures Onto(p, rest) == Onto(p, []) + rest
  {
    if p.Class? {
      OpenAppends(p.name, p.bases, rest);
    }
  }

  lemma {:induction false} NoHashClosed(bases: string)
    requires '#' !in bases
    ensures '#' !in Close(bases, [])
  {
    if bases != [] {
      NoHashClosed(bases[1..]);
    }
  }

  lemma {:induction false} NoHashOpened(name: string, bases: string)
    requires '#' !in bases && forall c <- name :: Word(c)
    ensures '#' !in Open(name, bases, [])
  {
    if name == [] {
      NoHashClosed(bases);
    } else {
      assert name[0] in name && forall c <- name[1..] :: c in name;
      NoHashOpened(name[1..], bases);
    }
  }

  lemma {:induction false} NoHashNoMarker(m: string, s: string)
    requires Marker(m) && '#' !in s
    ensures !Occurs(m, s)
  {
    if s != [] {
      NoHashNoMarker(m, s[1..]);
    }
  }

  lemma {:induction false} PastLonger(pattern: string, x: string, y: string)
    ensures Past(pattern, x).Some? ==> Past(pattern, x + y).Some?
  {
    if pattern != [] && x != [] {
      assert (x + y)[1..] == x[1..] + y;
      PastLonger(pattern[1..], x[1..], y);
    }
  }

  lemma {:induction false} OccursInPart(pattern: string, x: string, y: string)
    requires !Occurs(pattern, x + y)
    ensures !Occurs(pattern, x) && !Occurs(pattern, y)
  {
    PastLonger(pattern, x, y);
    if x == [] {
      assert x + y == y;
    } else {
      assert (x + y)[1..] == x[1..] + y;
      OccursInPart(pattern, x[1..], y);
    }
  }

  // ---- what a second run sees ----

  lemma {:induction false} RetargetClassifies(p: Piece)
    ensures Enum(Retarget(p)) == Enum(p) && (Enum(p) ==> KindOf(Retarget(p).bases) == KindOf(p.bases))
    ensures Unsupported(Retarget(p)) == Unsupported(p) && Retarget(Retarget(p)) == Retarget(p)
    ensures Enum(p) ==> IsTolerant(Retarget(p).bases)
  {
    if Enum(p) {
      TolerantIsKept(KindOf(p.bases).value);
    }
  }

  lemma {:induction false} SecondRunClassifies(ps: seq<Piece>, have: seq<Kind>)
    ensures Count(Retargeted(ps)) == Count(ps) && Needed(Retargeted(ps), have) == Needed(ps, have)
    ensures FirstUnsupported(ps).None? ==> FirstUnsupported(Retargeted(ps)).None?
    ensures Retargeted(Retargeted(ps)) == Retargeted(ps)
  {
    if ps != [] {
      RetargetedCons(ps);
      RetargetClassifies(ps[0]);
      SecondRunClassifies(ps[1..], Requested(ps[0], have));
    }
  }

  lemma {:induction false} LiteralsCountNothing(x: string, ps: seq<Piece>, have: seq<Kind>)
    ensures Count(Before(x, ps)) == Count(ps) && Needed(Before(x, ps), have) == Needed(ps, have)
    ensures FirstUnsupported(Before(x, ps)) == FirstUnsupported(ps)
    ensures Retargeted(Before(x, ps)) == Before(x, Retargeted(ps))
  {
    if x != [] {
      LiteralsCountNothing(x[1..], ps, have);
      assert Before(x, ps)[1..] == Before(x[1..], ps);
    }
  }

  lemma {:induction false} NoEnumNothingToDo(ps: seq<Piece>)
    requires Count(ps) == 0
    ensures Retargeted(ps) == ps
  {
    if ps != [] {
      NoEnumNothingToDo(ps[1..]);
      assert ps == [ps[0]] + ps[1..];
    }
  }

  /** Cutting the re-pointed body finds the re-pointed pieces. */
  lemma {:induction false} BodyCuts(s: string)
    ensures var qs := Retargeted(Lex(s, true)); Lexed(qs, true) && Lex(Render(qs), true) == qs
  {
    LexIsLexed(s, true);
    RetargetKeepsCuts(Lex(s, true), true);
    LexIsUnique(Retargeted(Lex(s, true)), true);
  }

  /** The re-spaced pieces, from the first class on as in `qs`. */
  function Respaced(qs: seq<Piece>): seq<Piece> {
    Before(WithoutTrailingLines(Leading(qs)), Before(Gap(3, []), Onward(qs)))
  }

  /** A second run strips the block of the first and is left with the same pieces, re-spaced. */
  lemma {:induction false} SecondRunStrips(sup: Support, qs: seq<Piece>, needed: seq<Kind>)
    requires Usable(sup) && Lexed(qs, true) && Onward(qs) != []
    requires !Occurs(sup.begin, Leading(qs)) && StripBlock(sup, Render(Onward(qs))) == Render(Onward(qs))
    ensures var text := WithoutTrailingLines(Leading(qs)) + Gap(3, Block(sup, needed, Render(Onward(qs))));
            StripBlock(sup, text) == Render(Respaced(qs)) && Lex(Render(Respaced(qs)), true) == Respaced(qs)
  {
    var x, rest := Leading(qs), Onward(qs);
    var head, tail := WithoutTrailingLines(x), Render(rest);
    var n := StripTakesAGap(x);
    LeadingThenOnward(qs);
    BeforeRenders(x, rest);
    OccursInPart(sup.begin, head, Gap(n, []));
    StripTakesTheBlock(sup, head, needed, tail);
    BeforeRenders(Gap(3, []), rest);
    BeforeRenders(head, Before(Gap(3, []), rest));
    GapAdds(3, tail);
    RespacedCuts(qs);
    LexIsUnique(Respaced(qs), true);
  }

  /** ... and re-pointing, counting and re-spacing them again changes nothing. */
  lemma {:induction false} SecondRunKeeps(ps: seq<Piece>)
    requires FirstUnsupported(ps).None? && Onward(Retargeted(ps)) != []
    ensures var (qs, again) := (Retargeted(ps), Respaced(Retargeted(ps)));
            && Retargeted(again) == again && FirstUnsupported(again).None?
            && Count(again) == Count(ps) && Needed(again, []) == Needed(ps, [])
            && WithoutTrailingLines(Leading(again)) == WithoutTrailingLines(Leading(qs)) && Onward(again) == Onward(qs)
  {
    var qs := Retargeted(ps);
    var x, rest := Leading(qs), Onward(qs);
    var head := WithoutTrailingLines(x);
    SecondRunClassifies(ps, []);
    LeadingThenOnward(qs);
    LiteralsCountNothing(x, rest, []);
    RetargetedCons(rest);
    LeadingOfBefore(x, rest);
    LeadingOfBefore(x, Retargeted(rest));
    assert Retargeted(rest) == rest;
    LiteralsCountNothing(Gap(3, []), rest, []);
    LiteralsCountNothing(head, Before(Gap(3, []), rest), []);
    BeforeTwice(head, Gap(3, []), rest);
    LeadingOfBefore(head + Gap(3, []), rest);
    var n := StripTakesAGap(x);
    StripLeavesTheHead(head, 3);
  }

  lemma {:induction false} CountedClassIsOnward(ps: seq<Piece>)
    requires Count(ps) > 0
    ensures Onward(ps) != []
  {
    if ps[0].Lit? {
      CountedClassIsOnward(ps[1..]);
    }
  }

  // ---- texts with nothing more to strip ----

  /** Whether some begin marker is followed by an end marker. */
  predicate Blocked(sup: Support, s: string) {
    s != [] && (BlockAt(sup, s).Some? || Blocked(sup, s[1..]))
  }

  /** Stripping leaves a text as it is exactly when nothing in it is a block. */
  lemma {:induction false} UnblockedExactlyWhenStripped(sup: Support, s: string)
    requires sup.begin != []
    ensures |StripBlock(sup, s)| <= |s|
    ensures StripBlock(sup, s) == s <==> !Blocked(sup, s)
    decreases |s|
  {
    if s != [] {
      if BlockAt(sup, s).Some? {
        UnblockedExactlyWhenStripped(sup, BlockAt(sup, s).value);
      } else {
        UnblockedExactlyWhenStripped(sup, s[1..]);
        assert s == [s[0]] + s[1..];
      }
    }
  }

  lemma {:induction false} AfterFindsOnlyOccurrences(pattern: string, s: string)
    ensures After(pattern, s).Some? <==> Occurs(pattern, s)
  {
    if s != [] {
      AfterFindsOnlyOccurrences(pattern, s[1..]);
    }
  }

  lemma {:induction false} BlockedInPart(sup: Support, x: string, y: string)
    requires Blocked(sup, y)
    ensures Blocked(sup, x + y)
  {
    if x == [] {
      assert x + y == y;
    } else {
      assert (x + y)[1..] == x[1..] + y;
      BlockedInPart(sup, x[1..], y);
    }
  }

  /** Before two continuations of a line, a block that the second completes is completed by the first. */
  lemma {:induction false} BlockedBefore(sup: Support, x: string, y: string, z: string)
    requires Marker(sup.begin) && Marker(sup.end) && EndsLine(y) && EndsLine(z)
    requires (Occurs(sup.end, z) ==> Occurs(sup.end, y)) && (Blocked(sup, z) ==> Blocked(sup, y))
    requires Blocked(sup, x + z)
    ensures Blocked(sup, x + y)
  {
    if x == [] {
      assert x + y == y && x + z == z;
    } else {
      assert (x + y)[1..] == x[1..] + y && (x + z)[1..] == x[1..] + z;
      PastWithinLine(sup.begin, x, y);
      PastWithinLine(sup.begin, x, z);
      if BlockAt(sup, x + z).Some? {
        var r := Past(sup.begin, x).value;
        AfterFindsOnlyOccurrences(sup.end, r + y);
        AfterFindsOnlyOccurrences(sup.end, r + z);
        OccursWithinLine(sup.end, r, y);
        OccursWithinLine(sup.end, r, z);
      } else {
        BlockedBefore(sup, x[1..], y, z);
      }
    }
  }

  lemma {:induction false} NotBlockedHere(sup: Support, x: string, y: string)
    requires Marker(sup.begin) && EndsLine(y) && !Occurs(sup.begin, x) && Blocked(sup, x + y)
    ensures Blocked(sup, y)
  {
    PastWithinLine(sup.begin, x, y);
    if x == [] {
      assert x + y == y;
    } else {
      assert (x + y)[1..] == x[1..] + y;
      NotBlockedHere(sup, x[1..], y);
    }
  }

  // ---- re-pointing keeps every marker ----

  lemma {:induction false} HashSurvivesTrim(s: string)
    requires '#' in s
    ensures '#' in LStrip(s) && '#' in RStripBy(s, Space)
    decreases |s|
  {
    if Space(s[0]) {
      HashSurvivesTrim(s[1..]);
    }
    if Space(s[|s| - 1]) {
      HashSurvivesTrim(s[..|s| - 1]);
    }
  }

  lemma {:induction false} HashSurvivesJoin(parts: seq<string>)
    requires exists i :: 0 <= i < |parts| && '#' in parts[i]
    ensures '#' in JoinTrimmed(parts)
  {
    if '#' in parts[0] {
      HashSurvivesTrim(parts[0]);
      HashSurvivesTrim(LStrip(parts[0]));
    } else {
      var i :| 0 <= i < |parts| && '#' in parts[i];
      assert parts[1..][i - 1] == parts[i];
      HashSurvivesJoin(parts[1..]);
    }
  }

  lemma {:induction false} HashSurvivesSplit(s: string)
    requires '#' in s
    ensures exists i :: 0 <= i < |SplitCommas(s)| && '#' in SplitCommas(s)[i]
  {
    var rest, parts := SplitCommas(s[1..]), SplitCommas(s);
    if s[0] == '#' {
      assert '#' in parts[0];
    } else {
      HashSurvivesSplit(s[1..]);
      var i :| 0 <= i < |rest| && '#' in rest[i];
      if s[0] == ',' {
        assert parts[i + 1] == rest[i];
      } else {
        assert parts[i] == if i == 0 then [s[0]] + rest[0] else rest[i];
        assert '#' in parts[i];
      }
    }
  }

  lemma {:induction false} SpellingsHaveNoHash(k: Kind)
    ensures '#' !in Spelling(k) && '#' !in Tolerant(k)
  {
    TolerantSpelt(k);
  }

  /** A base the script knows is not commented. */
  lemma {:induction false} KnownBaseHasNoHash(bases: string)
    requires KindOf(bases).Some?
    ensures '#' !in bases
  {
    SpellingsHaveNoHash(KindOf(bases).value);
    hide Spelling, Tolerant;
    if '#' in bases {
      HashSurvivesSplit(bases);
      HashSurvivesJoin(SplitCommas(bases));
    }
  }

  /** The same piece, or two headers that hold no marker. */
  predicate Alike(p: Piece, q: Piece) {
    p == q || (p.Class? && q.Class? && '#' !in Onto(p, []) && '#' !in Onto(q, []))
  }

  ghost predicate AllAlike(ps: seq<Piece>, qs: seq<Piece>) {
    |ps| == |qs| && (ps != [] ==> Alike(ps[0], qs[0]) && AllAlike(ps[1..], qs[1..]))
  }

  lemma {:induction false} RetargetedIsAlike(ps: seq<Piece>, lineStart: bool)
    requires Lexed(ps, lineStart)
    ensures AllAlike(ps, Retargeted(ps)) && AllAlike(Retargeted(ps), ps)
  {
    if ps != [] {
      var p := ps[0];
      RetargetedCons(ps);
      RetargetedIsAlike(ps[1..], p.Lit? && p.c == '\n');
      if Retarget(p) != p {
        KnownBaseHasNoHash(p.bases);
        TolerantSpelt(KindOf(p.bases).value);
        NoHashOpened(p.name, p.bases);
        NoHashOpened(p.name, Retarget(p).bases);
      }
    }
  }

  lemma {:induction false} PastAlike(pattern: string, ps: seq<Piece>, qs: seq<Piece>, lineStart: bool)
    requires Lexed(ps, lineStart) && Lexed(qs, lineStart) && AllAlike(ps, qs)
    requires '\n' !in pattern && (ps != [] ==> ps[0].Lit?) && Past(pattern, Render(ps)).Some?
    ensures |pattern| <= |ps| && AllAlike(ps[|pattern|..], qs[|pattern|..])
    ensures Past(pattern, Render(ps)) == Some(Render(ps[|pattern|..]))
    ensures Past(pattern, Render(qs)) == Some(Render(qs[|pattern|..]))
    ensures pattern != [] ==> Lexed(ps[|pattern|..], false) && Lexed(qs[|pattern|..], false)
  {
    if pattern == [] {
      assert ps[0..] == ps && qs[0..] == qs;
    } else {
      assert Render(ps)[1..] == Render(ps[1..]) && Render(qs)[1..] == Render(qs[1..]);
      assert pattern[0] in pattern && forall c <- pattern[1..] :: c in pattern;
      PastAlike(pattern[1..], ps[1..], qs[1..], false);
      assert ps[1..][|pattern| - 1..] == ps[|pattern|..] && qs[1..][|pattern| - 1..] == qs[|pattern|..];
    }
  }

  lemma {:induction false} OccursAlike(m: string, ps: seq<Piece>, qs: seq<Piece>, lineStart: bool)
    requires Marker(m) && Lexed(ps, lineStart) && Lexed(qs, lineStart) && AllAlike(ps, qs) && Occurs(m, Render(ps))
    ensures Occurs(m, Render(qs))
  {
    if ps != [] {
      var p, q, y, z := ps[0], qs[0], Render(ps[1..]), Render(qs[1..]);
      if p.Lit? {
        assert Render(ps)[1..] == y && Render(qs)[1..] == z;
        if Past(m, Render(ps)).Some? {
          PastAlike(m, ps, qs, lineStart);
        } else {
          OccursAlike(m, ps[1..], qs[1..], p.c == '\n');
        }
      } else {
        OntoAppends(p, y);
        OntoAppends(q, z);
        OccursWithinLine(m, Onto(p, []), y);
        OccursWithinLine(m, Onto(q, []), z);
        if Occurs(m, y) {
          OccursAlike(m, ps[1..], qs[1..], false);
        } else if p != q {
          NoHashNoMarker(m, Onto(p, []));
        }
      }
    }
  }

  /** So re-pointing makes no block, and unmakes none. */
  lemma {:induction false} BlockedAlike(sup: Support, ps: seq<Piece>, qs: seq<Piece>, lineStart: bool)
    requires Marker(sup.begin) && Marker(sup.end) && Lexed(ps, lineStart) && Lexed(qs, lineStart) && AllAlike(ps, qs)
    requires Blocked(sup, Render(ps))
    ensures Blocked(sup, Render(qs))
    decreases |ps|, 1
  {
    if ps[0].Class? {
      ClassBlockedAlike(sup, ps, qs);
    } else {
      var n := |sup.begin|;
      assert Render(ps)[1..] == Render(ps[1..]) && Render(qs)[1..] == Render(qs[1..]);
      if BlockAt(sup, Render(ps)).Some? {
        PastAlike(sup.begin, ps, qs, lineStart);
        AfterFindsOnlyOccurrences(sup.end, Render(ps[n..]));
        AfterFindsOnlyOccurrences(sup.end, Render(qs[n..]));
        OccursAlike(sup.end, ps[n..], qs[n..], false);
      } else {
        BlockedAlike(sup, ps[1..], qs[1..], ps[0].c == '\n');
      }
    }
  }

  lemma {:induction false} ClassBlockedAlike(sup: Support, ps: seq<Piece>, qs: seq<Piece>)
    requires Marker(sup.begin) && Marker(sup.end) && Lexed(ps, true) && Lexed(qs, true) && AllAlike(ps, qs)
    requires Blocked(sup, Render(ps)) && ps != [] && ps[0].Class?
    ensures Blocked(sup, Render(qs))
    decreases |ps|, 0
  {
    var p, q, y, z := ps[0], qs[0], Render(ps[1..]), Render(qs[1..]);
    OntoAppends(p, y);
    OntoAppends(q, z);
    if Blocked(sup, y) {
      BlockedAlike(sup, ps[1..], qs[1..], false);
    }
    if p != q {
      NoHashNoMarker(sup.begin, Onto(p, []));
      NotBlockedHere(sup, Onto(p, []), y);
      BlockedInPart(sup, Onto(q, []), z);
    } else {
      if Occurs(sup.end, y) {
        OccursAlike(sup.end, ps[1..], qs[1..], false);
      }
      BlockedBefore(sup, Onto(p, []), z, y);
    }
  }

  // ---- when a second run changes nothing ----

  /**
   Rewriting what the rewrite wrote changes nothing, when nothing is left to strip and no begin marker
   stands above the first class.
   */
  lemma {:induction false} RewriteIsIdempotent(sup: Support, t: string)
    requires Usable(sup) && RewriteOf(sup, t).Rewritten?
    requires StripBlock(sup, StripBlock(sup, t)) == StripBlock(sup, t)
    requires RewriteOf(sup, t).count == 0 || !Occurs(sup.begin, Leading(Lex(StripBlock(sup, t), true)))
    ensures RewriteOf(sup, RewriteOf(sup, t).text) == RewriteOf(sup, t)
  {
    var s := StripBlock(sup, t);
    var ps := Lex(s, true);
    var qs := Retargeted(ps);
    BodyCuts(s);
    LexIsLexed(s, true);
    if Count(ps) == 0 {
      NoEnumNothingToDo(ps);
    } else {
      SecondRunClassifies(ps, []);
      CountedClassIsOnward(qs);
      LeadingIsKept(ps);
      TailIsUnblocked(sup, s);
      SecondRunStrips(sup, qs, Needed(ps, []));
      SecondRunKeeps(ps);
    }
  }

  lemma {:induction false} LeadingIsKept(ps: seq<Piece>)
    ensures Leading(Retargeted(ps)) == Leading(ps) && Onward(Retargeted(ps)) == Retargeted(Onward(ps))
  {
    if ps != [] && ps[0].Lit? {
      RetargetedCons(ps);
      LeadingIsKept(ps[1..]);
    } else if ps != [] {
      RetargetedCons(ps);
    }
  }

  /** From the first class on, the re-pointed text has nothing to strip when the text had none. */
  lemma {:induction false} TailIsUnblocked(sup: Support, s: string)
    requires Usable(sup) && StripBlock(sup, s) == s
    ensures var tail := Render(Onward(Retargeted(Lex(s, true)))); StripBlock(sup, tail) == tail
  {
    var ps := Lex(s, true);
    var qs := Retargeted(ps);
    var tail := Render(Onward(qs));
    LexIsLexed(s, true);
    UnblockedExactlyWhenStripped(sup, s);
    UnblockedExactlyWhenStripped(sup, tail);
    if Blocked(sup, tail) {
      LeadingThenOnward(qs);
      BeforeRenders(Leading(qs), Onward(qs));
      BlockedInPart(sup, Leading(qs), tail);
      RetargetKeepsCuts(ps, true);
      RetargetedIsAlike(ps, true);
      BlockedAlike(sup, qs, ps, true);
    }
  }

  /** The number of `#` in a text: what stripping lowers and re-pointing does not raise. */
  function Hashes(s: string): nat {
    if s == [] then 0 else (if s[0] == '#' then 1 else 0) + Hashes(s[1..])
  }

  lemma {:induction false} HashesAdd(x: string, y: string)
    ensures Hashes(x + y) == Hashes(x) + Hashes(y)
  {
    if x == [] {
      assert x + y == y;
    } else {
      assert (x + y)[1..] == x[1..] + y;
      HashesAdd(x[1..], y);
    }
  }

  lemma {:induction false} HashesOfGap(n: nat, rest: string)
    ensures Hashes(Gap(n, rest)) == Hashes(rest) && |Gap(n, rest)| == n + |rest|
  {
    if n > 0 {
      HashesOfGap(n - 1, rest);
      assert Gap(n, rest)[1..] == Gap(n - 1, rest);
    }
  }

  lemma {:induction false} NoHashes(s: string)
    requires '#' !in s
    ensures Hashes(s) == 0
  {
    if s != [] {
      NoHashes(s[1..]);
    }
  }

  lemma {:induction false} AfterKeepsFewer(pattern: string, s: string)
    requires After(pattern, s).Some?
    ensures Hashes(After(pattern, s).value) <= Hashes(s)
  {
    if Past(pattern, s).Some? {
      PastRejoins(pattern, s);
      HashesAdd(pattern, Past(pattern, s).value);
    } else {
      AfterKeepsFewer(pattern, s[1..]);
    }
  }

  lemma {:induction false} LeadingLinesHoldNone(s: string)
    ensures Hashes(WithoutLeadingLines(s)) == Hashes(s)
  {
    if s != [] && s[0] == '\n' {
      LeadingLinesHoldNone(s[1..]);
    }
  }

  lemma {:induction false} BlockTakesAHash(sup: Support, s: string)
    requires Marker(sup.begin) && BlockAt(sup, s).Some?
    ensures Hashes(BlockAt(sup, s).value) < Hashes(s)
  {
    var r := Past(sup.begin, s).value;
    PastRejoins(sup.begin, s);
    HashesAdd(sup.begin, r);
    AfterKeepsFewer(sup.end, r);
    LeadingLinesHoldNone(After(sup.end, r).value);
  }

  lemma {:induction false} StripTakesHashes(sup: Support, s: string)
    requires Marker(sup.begin)
    ensures Hashes(StripBlock(sup, s)) <= Hashes(s) && (Blocked(sup, s) ==> Hashes(StripBlock(sup, s)) < Hashes(s))
    decreases |s|
  {
    if s != [] {
      if BlockAt(sup, s).Some? {
        BlockTakesAHash(sup, s);
        StripTakesHashes(sup, BlockAt(sup, s).value);
      } else {
        StripTakesHashes(sup, s[1..]);
        assert StripBlock(sup, s)[1..] == StripBlock(sup, s[1..]);
      }
    }
  }

  lemma {:induction false} RetargetAddsNoHash(ps: seq<Piece>)
    requires forall p <- ps :: WellFormed(p)
    ensures Hashes(Render(Retargeted(ps))) <= Hashes(Render(ps))
  {
    if ps != [] {
      RetargetedCons(ps);
      assert ps[0] in ps && forall p <- ps[1..] :: p in ps;
      var p, rest := ps[0], ps[1..];
      RetargetAddsNoHash(rest);
      OntoAppends(p, Render(rest));
      OntoAppends(Retarget(p), Render(Retargeted(rest)));
      HashesAdd(Onto(p, []), Render(rest));
      HashesAdd(Onto(Retarget(p), []), Render(Retargeted(rest)));
      if Retarget(p) != p {
        TolerantSpelt(KindOf(p.bases).value);
        NoHashOpened(p.name, Retarget(p).bases);
        NoHashes(Onto(Retarget(p), []));
      }
    }
  }

  lemma {:induction false} CutsAreWellFormed(ps: seq<Piece>, lineStart: bool)
    requires Lexed(ps, lineStart)
    ensures forall p <- ps :: WellFormed(p)
  {
    if ps != [] {
      CutsAreWellFormed(ps[1..], ps[0].Lit? && ps[0].c == '\n');
      assert ps == [ps[0]] + ps[1..];
    }
  }

  lemma {:induction false} AfterWithinLine(pattern: string, x: string, y: string)
    requires '\n' !in pattern && EndsLine(y) && pattern != [] && Occurs(pattern, x)
    ensures After(pattern, x).Some? && After(pattern, x + y) == Some(After(pattern, x).value + y)
  {
    PastWithinLine(pattern, x, y);
    if x != [] {
      assert (x + y)[1..] == x[1..] + y;
      if Past(pattern, x).None? {
        AfterWithinLine(pattern, x[1..], y);
      }
    }
  }

  lemma {:induction false} LeadingLinesBefore(x: string, y: string)
    ensures WithoutLeadingLines(x + y) ==
      if WithoutLeadingLines(x) == [] then WithoutLeadingLines(y) else WithoutLeadingLines(x) + y
  {
    if x == [] {
      assert x + y == y;
    } else if x[0] == '\n' {
      assert (x + y)[1..] == x[1..] + y;
      LeadingLinesBefore(x[1..], y);
    }
  }

  /** In front of an injected block, the next end marker is the block's own. */
  lemma {:induction false} AfterTheBlock(sup: Support, x: string, n: nat, needed: seq<Kind>, tail: string)
    requires Usable(sup) && !Occurs(sup.end, sup.begin) && !Occurs(sup.end, x) && n > 0
    ensures After(sup.end, x + Gap(n, Block(sup, needed, tail))) == Some(Gap(3, tail))
  {
    var inside := Sources(sup, needed, sup.end + Gap(3, tail));
    AfterSkips(sup.end, x, Gap(n, Block(sup, needed, tail)));
    AfterSkipsGap(sup.end, n, Block(sup, needed, tail));
    AfterSkips(sup.end, sup.begin, Gap(3, inside));
    AfterSkipsGap(sup.end, 3, inside);
    AfterSources(sup, needed, Gap(3, tail));
  }

  lemma {:induction false} InjectedBlockIsOne(sup: Support, needed: seq<Kind>, tail: string)
    requires Usable(sup) && tail != [] && tail[0] != '\n'
    ensures BlockAt(sup, Block(sup, needed, tail)) == Some(tail) && Block(sup, needed, tail)[0] == '#'
  {
    var inside := Sources(sup, needed, sup.end + Gap(3, tail));
    PastIsPrefix(sup.begin, Gap(3, inside));
    AfterSkipsGap(sup.end, 3, inside);
    AfterSources(sup, needed, Gap(3, tail));
    LeadingLinesGo(3, tail);
  }

  /** Stripping takes the block, and what else it takes, above or below, costs a `#`. */
  lemma {:induction false} StrippingAroundTheBlock(sup: Support, head: string, n: nat, needed: seq<Kind>, tail: string)
    requires Usable(sup) && !Occurs(sup.end, sup.begin) && tail != [] && tail[0] != '\n' && (n > 0 || head == [])
    ensures var left := Hashes(StripBlock(sup, head + Gap(n, Block(sup, needed, tail))));
            && left <= Hashes(head) + Hashes(tail)
            && (Occurs(sup.begin, head) || Blocked(sup, tail) ==> left < Hashes(head) + Hashes(tail))
    decreases |head|
  {
    hide Block;
    var block := Block(sup, needed, tail);
    var text := head + Gap(n, block);
    StripTakesHashes(sup, tail);
    InjectedBlockIsOne(sup, needed, tail);
    if head == [] {
      assert text == Gap(n, block);
      StripSkipsGap(sup, n, block);
      HashesOfGap(n, StripBlock(sup, block));
    } else {
      PastWithinLine(sup.begin, head, Gap(n, block));
      if Past(sup.begin, head).None? {
        assert text[1..] == head[1..] + Gap(n, block);
        StrippingAroundTheBlock(sup, head[1..], n, needed, tail);
        assert StripBlock(sup, text)[1..] == StripBlock(sup, text[1..]);
      } else {
        StrippingFromAbove(sup, head, n, needed, tail);
      }
    }
  }

  /** A block that begins above ends above, or at the end of the injected one. */
  lemma {:induction false} StrippingFromAbove(sup: Support, head: string, n: nat, needed: seq<Kind>, tail: string)
    requires Usable(sup) && !Occurs(sup.end, sup.begin) && tail != [] && tail[0] != '\n' && n > 0
    requires Past(sup.begin, head).Some?
    ensures Hashes(StripBlock(sup, head + Gap(n, Block(sup, needed, tail)))) < Hashes(head) + Hashes(tail)
    decreases |head|, 0
  {
    hide Block;
    var block := Block(sup, needed, tail);
    var text, r := head + Gap(n, block), Past(sup.begin, head).value;
    InjectedBlockIsOne(sup, needed, tail);
    GapEndsLine(n, block);
    PastWithinLine(sup.begin, head, Gap(n, block));
    PastRejoins(sup.begin, head);
    HashesAdd(sup.begin, r);
    if Occurs(sup.end, r) {
      AfterWithinLine(sup.end, r, Gap(n, block));
      var v := After(sup.end, r).value;
      var w := WithoutLeadingLines(v);
      AfterKeepsFewer(sup.end, r);
      LeadingLinesHoldNone(v);
      LeadingLinesBefore(v, Gap(n, block));
      LeadingLinesGo(n, block);
      var m := if w == [] then 0 else n;
      assert w == [] ==> w + Gap(m, block) == block;
      assert BlockAt(sup, text) == Some(w + Gap(m, block));
      StrippingAroundTheBlock(sup, w, m, needed, tail);
    } else {
      AfterTheBlock(sup, r, n, needed, tail);
      LeadingLinesGo(3, tail);
      assert BlockAt(sup, text) == Some(tail);
      StripTakesHashes(sup, tail);
    }
  }

  lemma {:induction false} FromTheFirstClass(qs: seq<Piece>)
    requires Lexed(qs, true) && Onward(qs) != []
    ensures var tail := Render(Onward(qs)); tail != [] && tail[0] != '\n' && Lex(tail, true) == Onward(qs)
    ensures exists n: nat ::
              (n > 0 || Leading(qs) == []) && Leading(qs) == WithoutTrailingLines(Leading(qs)) + Gap(n, [])
  {
    var x, rest := Leading(qs), Onward(qs);
    LeadingThenOnward(qs);
    OnwardIsCut(qs, true);
    LexIsUnique(rest, true);
    var n := StripTakesAGap(x);
    if n == 0 {
      assert x == WithoutTrailingLines(x);
      NoGapNoHead(x, rest, true);
    }
  }

  lemma {:induction false} OnwardIsCut(ps: seq<Piece>, lineStart: bool)
    requires Lexed(ps, lineStart) && Onward(ps) != []
    ensures Lexed(Onward(ps), true)
  {
    if ps[0].Lit? {
      OnwardIsCut(ps[1..], ps[0].c == '\n');
    }
  }

  /** A text that a run reproduces has its block first and nothing else to strip. */
  lemma {:induction false} ReproducedTextIsPlain(sup: Support, r: string)
    requires Usable(sup) && !Occurs(sup.end, sup.begin)
    requires RewriteOf(sup, r).Rewritten? && RewriteOf(sup, r).count > 0 && RewriteOf(sup, r).text == r
    ensures var qs := Retargeted(Lex(StripBlock(sup, r), true));
            && Onward(qs) != [] && !Occurs(sup.begin, WithoutTrailingLines(Leading(qs)))
            && !Blocked(sup, Render(Onward(qs)))
  {
    hide Retargeted, Needed, Becomes, Lexed, Lex, StripBlock, Occurs, Block, WithoutTrailingLines, Count, Render,
         Leading,
         Onward, Before, Gap, FirstUnsupported, Unsupported, Blocked, Hashes;
    var s := StripBlock(sup, r);
    var ps := Lex(s, true);
    var qs := Retargeted(ps);
    var head, tail := WithoutTrailingLines(Leading(qs)), Render(Onward(qs));
    var gap := RewriteSplits(sup, r);
    LexIsLexed(s, true);
    CutsAreWellFormed(ps, true);
    RetargetAddsNoHash(ps);
    HashesAdd(head, Gap(gap, tail));
    HashesOfGap(gap, tail);
    BodyCuts(s);
    FromTheFirstClass(qs);
    StrippingAroundTheBlock(sup, head, 3, Needed(ps, []), tail);
  }

  lemma {:induction false} BlockedUnderGap(sup: Support, n: nat, s: string)
    requires Marker(sup.begin) && Blocked(sup, Gap(n, s))
    ensures Blocked(sup, s)
  {
    if n > 0 {
      assert Gap(n, s)[1..] == Gap(n - 1, s);
      BlockedUnderGap(sup, n - 1, s);
    }
  }

  /** One text read as two assembled ones: if one has its block first and nothing else to strip, they are the same. */
  lemma {:induction false} AssembledOneWay(
    sup: Support, head: string, needed: seq<Kind>, tail: string, head': string, needed': seq<Kind>, tail': string)
    requires Usable(sup) && !Occurs(sup.end, sup.begin)
    requires tail != [] && tail[0] != '\n' && tail' != [] && tail'[0] != '\n'
    requires head + Gap(3, Block(sup, needed, tail)) == head' + Gap(3, Block(sup, needed', tail'))
    requires !Occurs(sup.begin, head') && !Blocked(sup, tail') && (tail == tail' ==> needed == needed')
    ensures !Occurs(sup.begin, head) && tail == tail'
  {
    hide Block, Gap, Occurs, Blocked, After, Sources;
    var y, inside' := Gap(3, Block(sup, needed, tail)), Inside(sup, needed', tail');
    AfterFirstBegin(sup, head', needed', tail');
    LeadingLinesGo(3, tail);
    LeadingLinesGo(3, tail');
    if !Occurs(sup.begin, head) {
      AfterFirstBegin(sup, head, needed, tail);
    } else {
      GapEndsLine(3, Block(sup, needed, tail));
      AfterWithinLine(sup.begin, head, y);
      var b := After(sup.begin, head).value;
      assert inside' == b + y;
      if Occurs(sup.end, b) {
        AfterWithinLine(sup.end, b, y);
        BlockBelow(sup, After(sup.end, b).value, needed, tail);
        BlockedUnderGap(sup, 3, tail');
      } else {
        AfterTheBlock(sup, b, 3, needed, tail);
        InsideIsShorter(sup, needed, tail);
      }
    }
  }

  /** What follows the begin marker of a block. */
  function Inside(sup: Support, needed: seq<Kind>, tail: string): string {
    Gap(3, Sources(sup, needed, sup.end + Gap(3, tail)))
  }

  lemma {:induction false} InsideIsShorter(sup: Support, needed: seq<Kind>, tail: string)
    ensures |Inside(sup, needed, tail)| < |Gap(3, Block(sup, needed, tail))|
  {
    HashesOfGap(3, Block(sup, needed, tail));
  }

  lemma {:induction false} GapEndsLine(n: nat, rest: string)
    requires n > 0
    ensures EndsLine(Gap(n, rest))
  {
  }

  lemma {:induction false} BlockBelow(sup: Support, x: string, needed: seq<Kind>, tail: string)
    requires Usable(sup) && tail != [] && tail[0] != '\n'
    ensures Blocked(sup, x + Gap(3, Block(sup, needed, tail)))
  {
    hide Block, BlockAt;
    InjectedBlockIsOne(sup, needed, tail);
    GapAdds(3, Block(sup, needed, tail));
    BlockedInPart(sup, x + Gap(3, []), Block(sup, needed, tail));
    assert x + Gap(3, Block(sup, needed, tail)) == x + Gap(3, []) + Block(sup, needed, tail);
  }

  lemma {:induction false} AfterFirstBegin(sup: Support, head: string, needed: seq<Kind>, tail: string)
    requires Usable(sup) && !Occurs(sup.begin, head)
    ensures After(sup.begin, head + Gap(3, Block(sup, needed, tail))) == Some(Inside(sup, needed, tail))
    ensures After(sup.end, Inside(sup, needed, tail)) == Some(Gap(3, tail))
  {
    var sources := Sources(sup, needed, sup.end + Gap(3, tail));
    AfterSkips(sup.begin, head, Gap(3, Block(sup, needed, tail)));
    AfterSkipsGap(sup.begin, 3, Block(sup, needed, tail));
    PastIsPrefix(sup.begin, Gap(3, sources));
    AfterSkipsGap(sup.end, 3, sources);
    AfterSources(sup, needed, Gap(3, tail));
  }

  lemma {:induction false} NeededFromTheFirstClass(ps: seq<Piece>)
    ensures Needed(ps, []) == Needed(Onward(Retargeted(ps)), [])
  {
    var qs := Retargeted(ps);
    SecondRunClassifies(ps, []);
    LeadingThenOnward(qs);
    LiteralsCountNothing(Leading(qs), Onward(qs), []);
  }

  /** A text whose rewrite is reproduced had nothing left to strip, and no begin marker above its first class. */
  lemma {:induction false} StableWasPlain(sup: Support, t: string)
    requires Usable(sup) && !Occurs(sup.end, sup.begin) && RewriteOf(sup, t).Rewritten? && RewriteOf(sup, t).count > 0
    requires RewriteOf(sup, RewriteOf(sup, t).text) == RewriteOf(sup, t)
    ensures var s := StripBlock(sup, t); !Blocked(sup, s) && !Occurs(sup.begin, Leading(Lex(s, true)))
  {
    assert sup.begin != [];
    hide Retargeted, Needed, Becomes, Lexed, Lex, StripBlock, Occurs, Block, WithoutTrailingLines, Count, Render,
         Leading,
         Onward, Before, Gap, FirstUnsupported, Unsupported, Blocked, Hashes, Usable, RewriteStripped;
    var r := RewriteOf(sup, t).text;
    var s, s' := StripBlock(sup, t), StripBlock(sup, r);
    var ps, ps' := Lex(s, true), Lex(s', true);
    var qs, qs' := Retargeted(ps), Retargeted(ps');
    var gap := RewriteSplits(sup, t);
    var gap' := RewriteSplits(sup, r);
    ReproducedTextIsPlain(sup, r);
    BodyCuts(s);
    BodyCuts(s');
    FromTheFirstClass(qs);
    FromTheFirstClass(qs');
    NeededFromTheFirstClass(ps);
    NeededFromTheFirstClass(ps');
    AssembledOneWay(sup, WithoutTrailingLines(Leading(qs)), Needed(ps, []), Render(Onward(qs)),
                    WithoutTrailingLines(Leading(qs')), Needed(ps', []), Render(Onward(qs')));
    PlainAbove(sup, s);
  }

  /** A text is what stands above its first class, some line feeds, and the rest. */
  lemma {:induction false} ReadFromTheFirstClass(s: string) returns (n: nat)
    requires Onward(Lex(s, true)) != []
    ensures var ps := Lex(s, true);
            var head := WithoutTrailingLines(Leading(ps));
            && (n > 0 || head == []) && Leading(ps) == head + Gap(n, []) && s == head + Gap(n, Render(Onward(ps)))
            && Lexed(Onward(ps), true)
  {
    hide Lex, Lexed, Onward, Leading, WithoutTrailingLines, Render, Gap;
    var ps := Lex(s, true);
    LexIsLexed(s, true);
    FromTheFirstClass(ps);
    n :| (n > 0 || Leading(ps) == []) && Leading(ps) == WithoutTrailingLines(Leading(ps)) + Gap(n, []);
    LeadingThenOnward(ps);
    BeforeRenders(Leading(ps), Onward(ps));
    GapAdds(n, Render(Onward(ps)));
    OnwardIsCut(ps, true);
  }

  lemma {:induction false} PlainAbove(sup: Support, s: string)
    requires Usable(sup) && Onward(Retargeted(Lex(s, true))) != []
    requires var qs := Retargeted(Lex(s, true));
             !Occurs(sup.begin, WithoutTrailingLines(Leading(qs))) && !Blocked(sup, Render(Onward(qs)))
    ensures !Blocked(sup, s) && !Occurs(sup.begin, Leading(Lex(s, true)))
  {
    assert Marker(sup.begin) && Marker(sup.end);
    hide Usable, Lex, Lexed, Retargeted, Onward, Leading, WithoutTrailingLines, Blocked, Occurs, Render, Gap, Marker;
    var ps := Lex(s, true);
    var head, rest := WithoutTrailingLines(Leading(ps)), Onward(ps);
    LeadingIsKept(ps);
    RetargetKeepsNothing(rest);
    var n := ReadFromTheFirstClass(s);
    NoMarkerAbove(sup, head, n);
    if Blocked(sup, s) {
      BlockedBelow(sup, head, n, Render(rest));
      RetargetKeepsCuts(rest, true);
      RetargetedIsAlike(rest, true);
      BlockedAlike(sup, rest, Retargeted(rest), true);
    }
  }

  lemma {:induction false} RetargetKeepsNothing(ps: seq<Piece>)
    ensures Retargeted(ps) == [] <==> ps == []
  {
  }

  lemma {:induction false} NoMarkerAbove(sup: Support, head: string, n: nat)
    requires Marker(sup.begin) && !Occurs(sup.begin, head)
    ensures !Occurs(sup.begin, head + Gap(n, []))
  {
    NoMarkerInGap(sup.begin, n);
    OccursWithinLine(sup.begin, head, Gap(n, []));
  }

  lemma {:induction false} BlockedBelow(sup: Support, head: string, n: nat, s: string)
    requires Marker(sup.begin) && !Occurs(sup.begin, head) && (n > 0 || head == []) && Blocked(sup, head + Gap(n, s))
    ensures Blocked(sup, s)
  {
    if n > 0 {
      NotBlockedHere(sup, head, Gap(n, s));
    } else {
      assert head + Gap(n, s) == s;
    }
    BlockedUnderGap(sup, n, s);
  }

  lemma {:induction false} NoMarkerInGap(m: string, n: nat)
    requires Marker(m)
    ensures !Occurs(m, Gap(n, []))
  {
    if n > 0 {
      NoMarkerInGap(m, n - 1);
      assert Gap(n, [])[1..] == Gap(n - 1, []);
    }
  }

  /**
   When a second run changes nothing: exactly when one run of stripping was enough for the text it
   was given, and, if that text has an enum, no begin marker was left above its first class.
   */
  lemma {:induction false} IdempotentExactlyWhenNothingIsLeft(sup: Support, t: string)
    requires Usable(sup) && !Occurs(sup.end, sup.begin) && RewriteOf(sup, t).Rewritten?
    ensures var (s, once) := (StripBlock(sup, t), RewriteOf(sup, t));
            RewriteOf(sup, once.text) == once <==>
              StripBlock(sup, s) == s && (once.count == 0 || !Occurs(sup.begin, Leading(Lex(s, true))))
  {
    hide Lexed, Lex, StripBlock, Occurs, Blocked, Retargeted, Render, Count, Assembled, Leading;
    var s, once := StripBlock(sup, t), RewriteOf(sup, t);
    UnblockedExactlyWhenStripped(sup, s);
    if StripBlock(sup, s) == s && (once.count == 0 || !Occurs(sup.begin, Leading(Lex(s, true)))) {
      RewriteIsIdempotent(sup, t);
    } else if once.count == 0 {
      NoEnumNothingToDo(Lex(s, true));
      NoEnumNoChange(StripBlock(sup, s));
      LexIsLexed(s, true);
    } else if RewriteOf(sup, once.text) == once {
      StableWasPlain(sup, t);
    }
  }

  lemma {:induction false} NoEnumNoChange(s: string)
    ensures Count(Lex(s, true)) == 0 ==> Render(Retargeted(Lex(s, true))) == s
  {
    LexIsLexed(s, true);
    if Count(Lex(s, true)) == 0 {
      NoEnumNothingToDo(Lex(s, true));
    }
  }

  lemma {:induction false} BeginComment()
    ensures '\n' !in BEGIN_COMMENT && '#' !in BEGIN_COMMENT && |BEGIN_COMMENT| > 5 && BEGIN_COMMENT[5] == 'B'
  {
    BeginIsOneLine();
    BeginHasOneHash();
  }

  lemma {:induction false} BeginIsOneLine()
    ensures '\n' !in BEGIN_COMMENT
  {
    assert '\n' !in " --- BEGIN tolerant" && '\n' !in "-enum support (gener";
    assert '\n' !in "ated by script/gen/" && '\n' !in "tolerant_enums.py) ---";
  }

  lemma {:induction false} BeginHasOneHash()
    ensures '#' !in BEGIN_COMMENT
  {
    assert '#' !in " --- BEGIN tolerant" && '#' !in "-enum support (gener";
    assert '#' !in "ated by script/gen/" && '#' !in "tolerant_enums.py) ---";
  }

  lemma {:induction false} EndComment()
    ensures '\n' !in END_COMMENT && |END_COMMENT| > 5 && END_COMMENT[5] == 'E'
  {
    assert '\n' !in " --- END tolerant" && '\n' !in "-enum support ---";
  }

  /** The script's own markers: neither holds the other, so any sources without the end marker will do. */
  lemma {:induction false} TheMarkersAreUsable(sup: Support)
    requires sup.begin == BEGIN && sup.end == END && forall k: Kind :: !Occurs(END, Source(sup, k))
    ensures Usable(sup) && !Occurs(sup.end, sup.begin)
  {
    hide BEGIN_COMMENT, END_COMMENT, Occurs;
    BeginComment();
    EndComment();
    assert BEGIN[1..] == BEGIN_COMMENT;
    NoHashNoMarker(END, BEGIN_COMMENT);
    EndIsNotBegin();
  }

  lemma {:induction false} EndIsNotBegin()
    requires !Occurs(END, BEGIN_COMMENT)
    ensures !Occurs(END, BEGIN)
  {
    BeginComment();
    EndComment();
    hide BEGIN_COMMENT, END_COMMENT;
    assert BEGIN[1..] == BEGIN_COMMENT && BEGIN[6] != END[6];
    if Past(END, BEGIN).Some? {
      PastRejoins(END, BEGIN);
    }
  }

  /** So with the script's markers: a second run changes nothing exactly when nothing was left. */
  lemma {:induction false} ScriptIsIdempotentExactlyWhenNothingIsLeft(sup: Support, t: string)
    requires sup.begin == BEGIN && sup.end == END && forall k: Kind :: !Occurs(END, Source(sup, k))
    requires RewriteOf(sup, t).Rewritten?
    ensures var (s, once) := (StripBlock(sup, t), RewriteOf(sup, t));
            RewriteOf(sup, once.text) == once <==>
              StripBlock(sup, s) == s && (once.count == 0 || !Occurs(BEGIN, Leading(Lex(s, true))))
  {
    hide BEGIN, END, Occurs, StripBlock, Lex, Leading, RewriteStripped;
    TheMarkersAreUsable(sup);
    IdempotentExactlyWhenNothingIsLeft(sup, t);
  }

  // ---- a stray begin marker ----

  lemma {:induction false} CommentIsCut(x: string, ps: seq<Piece>, lineStart: bool)
    requires '\n' !in x && (x != [] && lineStart ==> x[0] == '#') && Lexed(ps, true)
    ensures Lexed(Before(x, Before(Gap(1, []), ps)), lineStart)
  {
    if x == [] {
      GapIsCut(1, ps, lineStart);
    } else {
      var a := Before(Gap(1, []), ps);
      assert Before(x, a)[1..] == Before(x[1..], a) && x[0] in x;
      CommentIsCut(x[1..], ps, false);
    }
  }

  lemma {:induction false} EnumIsBare()
    ensures Bare("Enum")
  {
    assert forall c <- "Enum" :: c == 'E' || c == 'n' || c == 'u' || c == 'm';
  }

  lemma {:induction false} EnumIsPlain()
    ensures Normal("Enum") == "Enum" && IsEnum("Enum") && KindOf("Enum") == Some(PlainKind) && !IsTolerant("Enum")
  {
    hide Normal, Bare, Occurs;
    EnumIsBare();
    BareIsNormal("Enum");
    OccursAtTheStart("Enum", []);
    assert "Enum" + [] == "Enum";
    TolerantAreDistinct(PlainKind);
  }

  lemma {:induction false} EnumAIsCut()
    ensures Lexed([Class("A", "Enum")], true) && Enum(Class("A", "Enum"))
    ensures Retarget(Class("A", "Enum")) == Class("A", Tolerant(PlainKind)) && KindOf("Enum") == Some(PlainKind)
  {
    hide Normal, IsEnum, KindOf, IsTolerant, Tolerant, Open, HeaderOf;
    EnumIsPlain();
    assert [Class("A", "Enum")][1..] == [];
  }

  /** One enum class is re-pointed, counted, and requests its base. */
  lemma {:induction false} OneEnum(p: Piece)
    requires Enum(p)
    ensures Retargeted([p]) == [Retarget(p)] && Count([p]) == 1 && FirstUnsupported([p]).None?
    ensures Needed([p], []) == [KindOf(p.bases).value]
  {
    hide Normal, IsEnum, KindOf, Retarget;
    var one := [p];
    assert one[1..] == [] && one[0] == p;
    assert Requested(p, []) == [KindOf(p.bases).value];
  }

  lemma {:induction false} StrayCuts(sup: Support, ps: seq<Piece>)
    requires Marker(sup.begin) && Lexed(ps, true)
    ensures var all := Before(sup.begin + Gap(1, []), ps);
            Lexed(all, true) && Lex(sup.begin + Gap(1, Render(ps)), true) == all
  {
    hide Before, Lexed, Lex, Render;
    BeforeTwice(sup.begin, Gap(1, []), ps);
    CommentIsCut(sup.begin, ps, true);
    BeforeRenders(sup.begin + Gap(1, []), ps);
    GapAdds(1, Render(ps));
    assert sup.begin + Gap(1, []) + Render(ps) == sup.begin + Gap(1, Render(ps));
    LexIsUnique(Before(sup.begin + Gap(1, []), ps), true);
  }

  lemma {:induction false} BlockedHasAnEnd(sup: Support, s: string)
    requires Blocked(sup, s)
    ensures Occurs(sup.end, s)
  {
    if BlockAt(sup, s).Some? {
      PastRejoins(sup.begin, s);
      AfterFindsOnlyOccurrences(sup.end, Past(sup.begin, s).value);
      if !Occurs(sup.end, s) {
        OccursInPart(sup.end, sup.begin, Past(sup.begin, s).value);
      }
    } else {
      BlockedHasAnEnd(sup, s[1..]);
    }
  }

  lemma {:induction false} StrayText(sup: Support, t: string)
    requires Usable(sup) && !Occurs(sup.end, sup.begin) && t == sup.begin + Gap(1, Render([Class("A", "Enum")]))
    ensures StripBlock(sup, t) == t
  {
    NoHashOpened("A", "Enum");
    assert '#' !in Render([Class("A", "Enum")]);
    NoHashNoMarker(sup.end, Gap(1, Render([Class("A", "Enum")])));
    OccursWithinLine(sup.end, sup.begin, Gap(1, Render([Class("A", "Enum")])));
    UnblockedExactlyWhenStripped(sup, t);
    if Blocked(sup, t) {
      BlockedHasAnEnd(sup, t);
    }
  }

  /** Two lines on which a second run does change something: a begin marker that ends nowhere, and an enum below it. */
  lemma {:induction false} StrayMarkerIsNotStable(sup: Support)
    requires Usable(sup) && !Occurs(sup.end, sup.begin)
    ensures var t := sup.begin + Gap(1, Render([Class("A", "Enum")]));
            RewriteOf(sup, t).Rewritten? && RewriteOf(sup, RewriteOf(sup, t).text) != RewriteOf(sup, t)
  {
    var p := Class("A", "Enum");
    EnumAIsCut();
    OneEnum(p);
    assert sup.begin != [] && Marker(sup.begin);
    hide Usable, Enum, Retarget, Lex, Lexed, StripBlock, Occurs, Gap, Render, Count, Before, Leading,
         FirstUnsupported, Assembled, Retargeted, Needed,
      Tolerant, KindOf, Marker;
    var t, lead := sup.begin + Gap(1, Render([p])), sup.begin + Gap(1, []);
    StrayText(sup, t);
    StrayCuts(sup, [p]);
    LiteralsCountNothing(lead, [p], []);
    LeadingOfBefore(lead, [p]);
    OccursAtTheStart(sup.begin, Gap(1, []));
    IdempotentExactlyWhenNothingIsLeft(sup, t);
  }

  // ---- the same in plain strings ----

  ghost predicate StandsAt(part: string, s: string, i: int) {
    0 <= i && i + |part| <= |s| && s[i..i + |part|] == part
  }

  /** `part` stands somewhere in `s`. */
  ghost predicate Holds(part: string, s: string) {
    exists i :: StandsAt(part, s, i)
  }

  lemma {:induction false} PastExactlyAtTheStart(part: string, s: string)
    ensures Past(part, s) == if StandsAt(part, s, 0) then Some(s[|part|..]) else None
  {
    if Past(part, s).Some? {
      PastRejoins(part, s);
    } else if StandsAt(part, s, 0) {
      assert s == part + s[|part|..];
      PastIsPrefix(part, s[|part|..]);
    }
  }

  lemma {:induction false} OneFurther(part: string, s: string, i: int)
    requires s != [] && 0 <= i
    ensures StandsAt(part, s[1..], i) <==> StandsAt(part, s, i + 1)
  {
    if i + 1 + |part| <= |s| {
      assert s[1..][i..i + |part|] == s[i + 1..i + 1 + |part|];
    }
  }

  /** The search for a pattern finds it exactly when it stands somewhere. */
  lemma {:induction false} OccursExactlyWhenHeld(part: string, s: string)
    ensures Occurs(part, s) <==> Holds(part, s)
  {
    PastExactlyAtTheStart(part, s);
    if s != [] {
      OccursExactlyWhenHeld(part, s[1..]);
      if i :| StandsAt(part, s[1..], i) {
        OneFurther(part, s, i);
      }
      if i :| StandsAt(part, s, i) && i > 0 {
        OneFurther(part, s, i - 1);
      }
    }
  }

  lemma {:induction false} CloseSpells(bases: string, rest: string)
    ensures Close(bases, rest) == bases + "):" + rest
  {
    if bases != [] {
      CloseSpells(bases[1..], rest);
    }
  }

  lemma {:induction false} OpenSpells(name: string, bases: string, rest: string)
    ensures Open(name, bases, rest) == name + "(" + bases + "):" + rest
  {
    if name == [] {
      CloseSpells(bases, rest);
    } else {
      OpenSpells(name[1..], bases, rest);
    }
  }

  /** A class header begins the text `s`, and `rest` follows it. */
  ghost predicate ClassLine(s: string, name: string, bases: string, rest: string) {
    && s == "class " + name + "(" + bases + "):" + rest
    && name != [] && ')' !in bases && (rest == [] || rest[0] == '\n')
    && forall c <- name :: 'a' <= c <= 'z' || 'A' <= c <= 'Z' || '0' <= c <= '9' || c == '_'
  }

  lemma {:induction false} HeaderWithRest(name: string, bases: string, rest: string)
    ensures Onto(Class(name, bases), rest) == "class " + name + "(" + bases + "):" + rest
  {
    OpenSpells(name, bases, rest);
    hide Open;
    assert "class " + (name + "(" + bases + "):" + rest) == "class " + name + "(" + bases + "):" + rest;
  }

  /** The headers that are found are exactly the class lines, with their names and bases. */
  lemma {:induction false} HeadersAreTheClassLines(s: string, name: string, bases: string, rest: string)
    ensures HeaderOf(s) == Some((Class(name, bases), rest)) <==> ClassLine(s, name, bases, rest)
    ensures Onto(Class(name, bases), rest) == "class " + name + "(" + bases + "):" + rest
  {
    HeaderWithRest(name, bases, rest);
    hide Onto, Past, NameOf;
    if HeaderOf(s) == Some((Class(name, bases), rest)) {
      HeaderRejoins(s);
    }
    if ClassLine(s, name, bases, rest) {
      HeaderFound(Class(name, bases), rest);
    }
  }

  predicate Blank(c: char) {
    c in " \t\n\r\U{0B}\U{0C}\U{1C}\U{1D}\U{1E}\U{1F}"
  }

  lemma {:induction false} BlanksAreSpace(c: char)
    ensures Blank(c) <==> Space(c)
  {
  }

  lemma {:induction false} LStripTakes(left: string, s: string)
    requires (forall c <- left :: Space(c)) && (s == [] || !Space(s[0]))
    ensures LStrip(left + s) == s
  {
    if left != [] {
      assert left[0] in left && forall c <- left[1..] :: c in left;
      assert (left + s)[1..] == left[1..] + s;
      LStripTakes(left[1..], s);
    } else {
      assert left + s == s;
    }
  }

  lemma {:induction false} RStripTakes(s: string, right: string)
    requires (forall c <- right :: Space(c)) && (s == [] || !Space(s[|s| - 1]))
    ensures RStripBy(s + right, Space) == s
  {
    if right != [] {
      var front := right[..|right| - 1];
      assert right[|right| - 1] in right && forall c <- front :: c in right;
      assert (s + right)[..|s + right| - 1] == s + front;
      RStripTakes(s, front);
    } else {
      assert s + right == s;
    }
  }

  /** Trimming takes the blanks at both ends and nothing else. */
  lemma {:induction false} TrimTakesTheBlanks(left: string, kept: string, right: string)
    requires forall c <- left + right :: Blank(c)
    requires kept != [] ==> !Blank(kept[0]) && !Blank(kept[|kept| - 1])
    ensures Trim(left + kept + right) == kept
  {
    forall c | c in left ensures Space(c) {
      assert c in left + right;
    }
    forall c | c in right ensures Space(c) {
      assert c in left + right;
    }
    if kept == [] {
      assert left + kept + right == (left + right) + [];
      LStripTakes(left + right, []);
    } else {
      assert left + kept + right == left + (kept + right);
      LStripTakes(left, kept + right);
      RStripTakes(kept, right);
    }
  }

  lemma {:induction false} SplitAtComma(part: string, more: string)
    requires ',' !in part
    ensures SplitCommas(part) == [part]
    ensures SplitCommas(part + "," + more) == [part] + SplitCommas(more)
  {
    var s := part + "," + more;
    if part == [] {
      assert s[1..] == more;
    } else {
      assert part[0] in part && s[1..] == part[1..] + "," + more;
      SplitAtComma(part[1..], more);
      assert ([part[1..]] + SplitCommas(more))[1..] == SplitCommas(more);
      assert part == [part[0]] + part[1..];
    }
  }

  /** The bases are respaced part by part: each trimmed, a comma and a blank between. */
  lemma {:induction false} BasesAreRespaced(part: string, more: string)
    requires ',' !in part
    ensures Normal(part) == Trim(part)
    ensures Normal(part + "," + more) == Trim(part) + ", " + Normal(more)
  {
    SplitAtComma(part, more);
    assert ([part] + SplitCommas(more))[1..] == SplitCommas(more);
  }

  /** An enum that cannot be made tolerant: neither a spelling of the generator's nor a tolerant base. */
  ghost predicate Foreign(bases: string) {
    && (Holds("Enum", bases) || Holds("Flag", bases))
    && bases !in ["StrEnum", "str, Enum", "Enum", "IntEnum"]
    && bases !in ["_TolerantStrEnum", "_TolerantStrMixinEnum", "_TolerantEnum", "_TolerantIntEnum"]
  }

  /** The base a class stands on afterwards, and which base's source the block needs for it. */
  function Repointed(bases: string): (string, Option<Kind>) {
    var b := Normal(bases);
    if b == "StrEnum" then ("_TolerantStrEnum", Some(StrKind))
    else if b == "str, Enum" then ("_TolerantStrMixinEnum", Some(StrMixinKind))
    else if b == "Enum" then ("_TolerantEnum", Some(PlainKind))
    else if b == "IntEnum" then ("_TolerantIntEnum", Some(IntKind))
    else if b == "_TolerantStrEnum" then (bases, Some(StrKind))
    else if b == "_TolerantStrMixinEnum" then (bases, Some(StrMixinKind))
    else if b == "_TolerantEnum" then (bases, Some(PlainKind))
    else if b == "_TolerantIntEnum" then (bases, Some(IntKind))
    else (bases, None)
  }

  lemma {:induction false} SpellingsAreEnums(k: Kind)
    ensures IsEnum(Spelling(k)) && IsEnum(Tolerant(k))
  {
    TolerantIsEnum(k);
    OccursAtTheEnd(Spelling(k)[..|Spelling(k)| - 4], "Enum");
    assert Spelling(k) == Spelling(k)[..|Spelling(k)| - 4] + "Enum";
  }

  lemma {:induction false} KindsAreSpelt(bases: string)
    ensures KindOf(bases) == Repointed(bases).1
    ensures Enum(Class("", bases)) <==> Repointed(bases).1.Some?
    ensures KindOf(bases).Some? ==> Repointed(bases).0 == Retarget(Class("", bases)).bases
  {
    hide Normal, IsEnum;
    if KindOf(bases).Some? {
      SpellingsAreEnums(KindOf(bases).value);
    }
  }

  /** Each known spelling is re-pointed at the tolerant base of its own kind; every other class is kept or refused. */
  lemma {:induction false} EachSpellingIsRepointed(name: string, bases: string)
    ensures Retarget(Class(name, bases)) == Class(name, Repointed(bases).0)
    ensures Unsupported(Class(name, bases)) <==> Foreign(Normal(bases))
    ensures Enum(Class(name, bases)) <==> Repointed(bases).1.Some?
  {
    hide Normal, Occurs, Holds;
    KindsAreSpelt(bases);
    OccursExactlyWhenHeld("Enum", Normal(bases));
    OccursExactlyWhenHeld("Flag", Normal(bases));
  }

  function Joined(parts: seq<string>): string {
    if parts == [] then [] else if |parts| == 1 then parts[0] else parts[0] + "\n\n\n" + Joined(parts[1..])
  }

  function SourceTexts(sup: Support, needed: seq<Kind>): (texts: seq<string>)
    ensures |texts| == |needed|
  {
    seq(|needed|, i requires 0 <= i < |needed| =>
      match needed[i]
      case StrKind => sup.strSource
      case StrMixinKind => sup.strMixinSource
      case PlainKind => sup.plainSource
      case IntKind => sup.intSource)
  }

  lemma {:induction false} GapSpells(rest: string)
    ensures Gap(3, rest) == "\n\n\n" + rest
  {
    assert Gap(3, rest) == ['\n'] + Gap(2, rest) && Gap(2, rest) == ['\n'] + Gap(1, rest) && Gap(0, rest) == rest;
  }

  lemma {:induction false} SourcesJoin(sup: Support, needed: seq<Kind>, rest: string)
    ensures Sources(sup, needed, sup.end + rest) == Joined(SourceTexts(sup, needed) + [sup.end]) + rest
  {
    var parts := SourceTexts(sup, needed) + [sup.end];
    if needed != [] {
      SourcesJoin(sup, needed[1..], rest);
      GapSpells(Sources(sup, needed[1..], sup.end + rest));
      assert parts[1..] == SourceTexts(sup, needed[1..]) + [sup.end];
    }
  }

  /** The block: the begin marker, the requested sources and the end marker, three line feeds between and after. */
  lemma {:induction false} BlockIsJoined(sup: Support, needed: seq<Kind>, rest: string)
    ensures Block(sup, needed, rest)
         == Joined([sup.begin] + SourceTexts(sup, needed) + [sup.end]) + "\n\n\n" + rest
  {
    var inside := SourceTexts(sup, needed) + [sup.end];
    var parts := [sup.begin] + SourceTexts(sup, needed) + [sup.end];
    GapSpells(rest);
    SourcesJoin(sup, needed, Gap(3, rest));
    GapSpells(Sources(sup, needed, sup.end + Gap(3, rest)));
    assert parts == [sup.begin] + inside && parts[1..] == inside;
  }

  lemma {:induction false} AfterTheFirst(pattern: string, s: string) returns (i: nat)
    requires After(pattern, s).Some?
    ensures StandsAt(pattern, s, i) && After(pattern, s).value == s[i + |pattern|..]
    ensures forall j :: 0 <= j < i ==> !StandsAt(pattern, s, j)
  {
    PastExactlyAtTheStart(pattern, s);
    if Past(pattern, s).Some? {
      i := 0;
    } else {
      var before := AfterTheFirst(pattern, s[1..]);
      i := before + 1;
      OneFurther(pattern, s, before);
      forall j | 0 <= j < i ensures !StandsAt(pattern, s, j) {
        if j > 0 {
          OneFurther(pattern, s, j - 1);
        }
      }
    }
  }

  lemma {:induction false} LeadingLinesEnd(s: string) returns (n: nat)
    ensures n <= |s| && WithoutLeadingLines(s) == s[n..]
    ensures (forall j :: 0 <= j < n ==> s[j] == '\n') && (n < |s| ==> s[n] != '\n')
  {
    n := 0;
    if s != [] && s[0] == '\n' {
      var before := LeadingLinesEnd(s[1..]);
      n := before + 1;
      assert forall j :: 0 < j < n ==> s[j] == s[1..][j - 1];
    }
  }

  /**
   Stripping, from left to right: where a begin marker stands and an end marker follows, everything goes up to
   the first end marker, with that marker and all line feeds after it; any other character stays.
   */
  lemma {:induction false} StripsBlockByBlock(sup: Support, s: string) returns (i: nat, m: nat)
    requires sup.begin != [] && s != []
    ensures if StandsAt(sup.begin, s, 0) && Holds(sup.end, s[|sup.begin|..])
            then
              && |sup.begin| <= i && StandsAt(sup.end, s, i) && i + |sup.end| <= m <= |s|
              && (forall j :: |sup.begin| <= j < i ==> !StandsAt(sup.end, s, j))
              && (forall j :: i + |sup.end| <= j < m ==> s[j] == '\n') && (m < |s| ==> s[m] != '\n')
              && StripBlock(sup, s) == StripBlock(sup, s[m..])
            else StripBlock(sup, s) == [s[0]] + StripBlock(sup, s[1..])
  {
    hide After, WithoutLeadingLines, Occurs, Past, StandsAt, Holds;
    i, m := 0, 0;
    PastExactlyAtTheStart(sup.begin, s);
    if StandsAt(sup.begin, s, 0) {
      var t := s[|sup.begin|..];
      AfterFindsOnlyOccurrences(sup.end, t);
      OccursExactlyWhenHeld(sup.end, t);
      if Holds(sup.end, t) {
        i, m := BlockEnds(sup.end, s, |sup.begin|);
      }
    }
  }

  lemma {:induction false} BlockEnds(end: string, s: string, n: nat) returns (i: nat, m: nat)
    requires n <= |s| && After(end, s[n..]).Some?
    ensures n <= i && StandsAt(end, s, i) && i + |end| <= m <= |s|
    ensures forall j :: n <= j < i ==> !StandsAt(end, s, j)
    ensures (forall j :: i + |end| <= j < m ==> s[j] == '\n') && (m < |s| ==> s[m] != '\n')
    ensures WithoutLeadingLines(After(end, s[n..]).value) == s[m..]
  {
    hide After, WithoutLeadingLines, StandsAt;
    var at := AfterTheFirst(end, s[n..]);
    var after := After(end, s[n..]).value;
    var run := LeadingLinesEnd(after);
    StandsInTail(end, s, n, at);
    i := n + at;
    FromTheTail(end, s, n, at);
    m := i + |end| + run;
    forall j | n <= j < i ensures !StandsAt(end, s, j) {
      StandsInTail(end, s, n, j - n);
    }
    forall j | i + |end| <= j < m ensures s[j] == '\n' {
      assert s[j] == after[j - i - |end|];
    }
    assert after[run..] == s[m..];
  }

  lemma {:induction false} StandsInTail(part: string, s: string, n: nat, j: nat)
    requires n <= |s|
    ensures StandsAt(part, s[n..], j) <==> StandsAt(part, s, n + j)
  {
    if n + j + |part| <= |s| {
      assert s[n..][j..j + |part|] == s[n + j..n + j + |part|];
    }
  }

  lemma {:induction false} FromTheTail(part: string, s: string, n: nat, at: nat)
    requires n <= |s| && StandsAt(part, s[n..], at)
    ensures n + at + |part| <= |s| && s[n..][at + |part|..] == s[n + at + |part|..]
  {
  }

  /** The count is the number of classes on a known base. */
  lemma {:induction false} CountsEachEnum(p: Piece, ps: seq<Piece>)
    ensures Count([]) == 0
    ensures Count([p] + ps) == Count(ps) + if p.Class? && Repointed(p.bases).1.Some? then 1 else 0
  {
    assert ([p] + ps)[1..] == ps;
    if p.Class? {
      EachSpellingIsRepointed(p.name, p.bases);
    }
  }

  // ---- what the rewrite does to a text ----

  /** The number of pieces before the first class of a kind. */
  function FirstUse(ps: seq<Piece>, k: Kind): nat {
    if ps == [] || (Enum(ps[0]) && KindOf(ps[0].bases) == Some(k)) then 0 else 1 + FirstUse(ps[1..], k)
  }

  /** The requested bases: each once, exactly those in use, in the order of their first use. */
  lemma {:induction false} NeededInOrderOfFirstUse(ps: seq<Piece>, have: seq<Kind>)
    requires Distinct(have)
    ensures var needed := Needed(ps, have);
            && Distinct(needed) && have <= needed
            && (forall k: Kind :: k in needed <==> k in have || FirstUse(ps, k) < |ps|)
            && (forall i, j :: |have| <= i < j < |needed| ==> FirstUse(ps, needed[i]) < FirstUse(ps, needed[j]))
  {
    hide Normal, IsEnum, KindOf;
    if ps != [] {
      var more := Requested(ps[0], have);
      NeededInOrderOfFirstUse(ps[1..], more);
      var needed := Needed(ps, have);
      forall i, j | |have| <= i < j < |needed| ensures FirstUse(ps, needed[i]) < FirstUse(ps, needed[j]) {
        assert needed[j] != needed[i];
        if |more| > |have| {
          assert needed[|have|] == KindOf(ps[0].bases).value;
        } else if Enum(ps[0]) {
          assert KindOf(ps[0].bases).value in have;
          assert needed[..|have|] == have;
        }
      }
    }
  }

  /** Whether a piece of the result is what its source piece becomes, with the base the block defines for it. */
  predicate Becomes(p: Piece, q: Piece, needed: seq<Kind>) {
    match p
    case Lit(_) => q == p
    case Class(name, bases) =>
      var (base, kind) := Repointed(bases);
      q == Class(name, base) && (kind.Some? ==> kind.value in needed)
  }

  lemma {:induction false} EachPieceBecomes(ps: seq<Piece>, have: seq<Kind>)
    requires FirstUnsupported(ps).None? && Distinct(have)
    ensures forall i :: 0 <= i < |ps| ==> Becomes(ps[i], Retargeted(ps)[i], Needed(ps, have))
  {
    hide Normal, IsEnum, KindOf, Retarget, Repointed;
    if ps != [] {
      RetargetedCons(ps);
      EachPieceBecomes(ps[1..], Requested(ps[0], have));
      NeededInOrderOfFirstUse(ps[1..], Requested(ps[0], have));
      NeededInOrderOfFirstUse(ps, have);
      forall i | 0 <= i < |ps| ensures Becomes(ps[i], Retargeted(ps)[i], Needed(ps, have)) {
        if i > 0 {
          assert Retargeted(ps)[i] == Retargeted(ps[1..])[i - 1] && ps[i] == ps[1..][i - 1];
        } else {
          FirstPieceBecomes(ps, have);
        }
      }
    }
  }

  lemma {:induction false} FirstPieceBecomes(ps: seq<Piece>, have: seq<Kind>)
    requires ps != [] && Distinct(have)
    ensures Becomes(ps[0], Retarget(ps[0]), Needed(ps, have))
  {
    hide Normal, IsEnum;
    NeededInOrderOfFirstUse(ps, have);
    if ps[0].Class? {
      EachSpellingIsRepointed(ps[0].name, ps[0].bases);
      KindsAreSpelt(ps[0].bases);
      if Enum(ps[0]) {
        assert FirstUse(ps, KindOf(ps[0].bases).value) == 0;
      }
    }
  }

  lemma {:induction false} FirstClass(qs: seq<Piece>) returns (first: nat)
    requires Onward(qs) != []
    ensures first < |qs| && qs[first].Class? && forall j :: 0 <= j < first ==> qs[j].Lit?
    ensures Render(qs[..first]) == Leading(qs) && qs[first..] == Onward(qs)
  {
    first := 0;
    if qs[0].Lit? {
      var before := FirstClass(qs[1..]);
      first := before + 1;
      assert qs[..first][1..] == qs[1..][..before] && qs[1..][before..] == qs[first..];
      assert forall j :: 0 < j <= first ==> qs[j] == qs[1..][j - 1];
    }
  }

  /** The bases the block is to define: those some class of the text stands on afterwards. */
  ghost predicate IsNeeded(ps: seq<Piece>, k: Kind) {
    exists p <- ps :: p.Class? && Repointed(p.bases).1 == Some(k)
  }

  lemma {:induction false} NeededIsInUse(ps: seq<Piece>, k: Kind)
    ensures FirstUse(ps, k) < |ps| <==> IsNeeded(ps, k)
  {
    hide Normal, IsEnum, KindOf, Repointed;
    if ps != [] {
      NeededIsInUse(ps[1..], k);
      assert ps == [ps[0]] + ps[1..];
      if ps[0].Class? {
        EachSpellingIsRepointed(ps[0].name, ps[0].bases);
        KindsAreSpelt(ps[0].bases);
      }
      if IsNeeded(ps[1..], k) {
        var p :| p in ps[1..] && p.Class? && Repointed(p.bases).1 == Some(k);
        assert p in ps;
      } else if IsNeeded(ps, k) {
        var p :| p in ps && p.Class? && Repointed(p.bases).1 == Some(k);
        assert p == ps[0];
      }
    }
  }

  /** A rewritten text with enums is its re-pointed body, cut above the first class, with a block between. */
  lemma {:induction false} RewriteSplits(sup: Support, t: string) returns (gap: nat)
    requires sup.begin != [] && RewriteOf(sup, t).Rewritten? && RewriteOf(sup, t).count > 0
    ensures var ps := Lex(StripBlock(sup, t), true);
            var (qs, needed) := (Retargeted(ps), Needed(ps, []));
            var (head, tail) := (WithoutTrailingLines(Leading(qs)), Render(Onward(qs)));
            && Render(ps) == StripBlock(sup, t) && Render(qs) == head + Gap(gap, tail) && Lex(Render(qs), true) == qs
            && RewriteOf(sup, t).text == head + Gap(3, Block(sup, needed, tail))
            && Onward(qs) != []
  {
    hide Retargeted, Needed, Lexed, Lex, StripBlock, Occurs, Block, WithoutTrailingLines, Count, Render,
         Leading,
         Onward, Before, Gap, FirstUnsupported, Unsupported;
    var s := StripBlock(sup, t);
    var ps := Lex(s, true);
    var qs := Retargeted(ps);
    BodyCuts(s);
    LexIsLexed(s, true);
    SecondRunClassifies(ps, []);
    CountedClassIsOnward(qs);
    gap := StripTakesAGap(Leading(qs));
    LeadingThenOnward(qs);
    BeforeRenders(Leading(qs), Onward(qs));
    GapAdds(gap, Render(Onward(qs)));
  }

  /**
   A rewritten text with enums is the stripped text, piece for piece: every enum class on the tolerant
   base of its own spelling, names and everything else unchanged and in place, except that the block with
   the bases in use stands above the first class, three line feeds from what is before and after it.
   */
  lemma {:induction false} RewriteRepointsEveryEnum(sup: Support, t: string)
    returns (qs: seq<Piece>, first: nat, head: string, gap: nat)
    requires sup.begin != [] && RewriteOf(sup, t).Rewritten? && RewriteOf(sup, t).count > 0
    ensures var ps := Lex(StripBlock(sup, t), true);
            var needed := Needed(ps, []);
            && Render(ps) == StripBlock(sup, t) && Lex(Render(qs), true) == qs
            && |qs| == |ps| && (forall i :: 0 <= i < |ps| ==> Becomes(ps[i], qs[i], needed))
            && Distinct(needed) && (forall k: Kind :: k in needed <==> IsNeeded(ps, k))
            && first < |qs| && qs[first].Class? && (forall j :: 0 <= j < first ==> qs[j].Lit?)
            && Render(qs[..first]) == head + Gap(gap, []) && (head == [] || head[|head| - 1] != '\n')
            && RewriteOf(sup, t).text
               == head + "\n\n\n" + Joined([sup.begin] + SourceTexts(sup, needed) + [sup.end]) + "\n\n\n"
                  + Render(qs[first..])
  {
    hide Retargeted, Needed, Becomes, Lexed, Lex, StripBlock, Occurs, Block, WithoutTrailingLines, Count, Render,
         Leading, Onward, Before, Gap, FirstUnsupported, Unsupported, Distinct, Joined, IsNeeded, FirstUse;
    var s := StripBlock(sup, t);
    var ps := Lex(s, true);
    qs := Retargeted(ps);
    BodyCuts(s);
    LexIsLexed(s, true);
    NothingRequested();
    EachPieceBecomes(ps, []);
    SecondRunClassifies(ps, []);
    CountedClassIsOnward(qs);
    first := FirstClass(qs);
    head := WithoutTrailingLines(Leading(qs));
    gap := StripTakesAGap(Leading(qs));
    NeededInOrderOfFirstUse(ps, []);
    forall k: Kind ensures k in Needed(ps, []) <==> IsNeeded(ps, k) {
      NeededIsInUse(ps, k);
    }
    AssembledIsJoined(sup, qs, Needed(ps, []));
  }

  lemma {:induction false} NothingRequested()
    ensures Distinct<Kind>([])
  {
  }

  lemma {:induction false} AssembledIsJoined(sup: Support, qs: seq<Piece>, needed: seq<Kind>)
    requires Lex(Render(qs), true) == qs
    ensures Assembled(sup, Render(qs), needed)
         == WithoutTrailingLines(Leading(qs)) + "\n\n\n"
            + Joined([sup.begin] + SourceTexts(sup, needed) + [sup.end]) + "\n\n\n" + Render(Onward(qs))
  {
    hide Lex, Render, WithoutTrailingLines, Leading, Onward, Joined, Block, Gap;
    var tail := Render(Onward(qs));
    GapSpells(Block(sup, needed, tail));
    BlockIsJoined(sup, needed, tail);
  }

  /** The rewrite is refused exactly when some enum has a base it cannot make tolerant, and names the first. */
  lemma {:induction false} RejectedExactlyWhenUnsupported(sup: Support, t: string)
    requires sup.begin != []
    ensures var ps := Lex(StripBlock(sup, t), true);
            && (RewriteOf(sup, t).Rejected? <==> exists p <- ps :: p.Class? && Foreign(Normal(p.bases)))
            && forall i :: 0 <= i < |ps| && ps[i].Class? && Foreign(Normal(ps[i].bases))
                           && (forall j :: 0 <= j < i && ps[j].Class? ==> !Foreign(Normal(ps[j].bases))) ==>
                             RewriteOf(sup, t) == Rejected(ps[i].name, Normal(ps[i].bases))
  {
    hide Normal, Foreign, Unsupported;
    var ps := Lex(StripBlock(sup, t), true);
    UnsupportedIsFound(ps);
    forall i | 0 <= i < |ps| ensures Unsupported(ps[i]) <==> ps[i].Class? && Foreign(Normal(ps[i].bases)) {
      UnsupportedIsForeign(ps[i]);
    }
    forall i | 0 <= i < |ps| && Unsupported(ps[i]) && forall j :: 0 <= j < i ==> !Unsupported(ps[j])
      ensures FirstUnsupported(ps) == Some(ps[i])
    {
      FirstIsFound(ps, i);
    }
  }

  lemma {:induction false} NoneCounted(ps: seq<Piece>)
    ensures Count(ps) == 0 <==> forall p <- ps :: p.Class? ==> Repointed(p.bases).1.None?
  {
    hide Normal, IsEnum, Repointed;
    if ps != [] {
      assert ps == [ps[0]] + ps[1..];
      NoneCounted(ps[1..]);
      CountsEachEnum(ps[0], ps[1..]);
    }
  }

  /** A text is merely stripped exactly when no class of it is or becomes tolerant and none is refused. */
  lemma {:induction false} WithoutEnumsOnlyStripped(sup: Support, t: string)
    requires sup.begin != []
    ensures var ps := Lex(StripBlock(sup, t), true);
            RewriteOf(sup, t) == Rewritten(StripBlock(sup, t), 0) <==>
              forall p <- ps :: p.Class? ==> Repointed(p.bases).1.None? && !Foreign(Normal(p.bases))
  {
    hide Normal, IsEnum, Repointed, Foreign, Unsupported, Enum;
    var ps := Lex(StripBlock(sup, t), true);
    NoneCounted(ps);
    NoEnumNoChange(StripBlock(sup, t));
    UnsupportedIsFound(ps);
    forall p | p in ps ensures Unsupported(p) <==> p.Class? && Foreign(Normal(p.bases)) {
      UnsupportedIsForeign(p);
    }
  }

  lemma {:induction false} UnsupportedIsForeign(p: Piece)
    ensures Unsupported(p) <==> p.Class? && Foreign(Normal(p.bases))
  {
    if p.Class? {
      EachSpellingIsRepointed(p.name, p.bases);
    }
  }

  lemma {:induction false} FirstIsFound(ps: seq<Piece>, i: nat)
    requires i < |ps| && Unsupported(ps[i]) && forall j :: 0 <= j < i ==> !Unsupported(ps[j])
    ensures FirstUnsupported(ps) == Some(ps[i])
  {
    if i > 0 {
      FirstIsFound(ps[1..], i - 1);
    }
  }

  lemma {:induction false} UnsupportedIsFound(ps: seq<Piece>)
    ensures FirstUnsupported(ps).Some? <==> exists p <- ps :: Unsupported(p)
  {
    if ps != [] {
      UnsupportedIsFound(ps[1..]);
      assert ps == [ps[0]] + ps[1..];
      if Unsupported(ps[0]) {
        assert ps[0] in ps;
      }
      if p :| p in ps[1..] && Unsupported(p) {
        assert p in ps;
      }
    }
  }

  // ---- the callback form ----

  lemma {:induction false} LexCons(s: string, lineStart: bool)
    requires s != []
    ensures var header := if lineStart then HeaderOf(s) else None;
            Lex(s, lineStart) == match header {
              case Some((p, rest)) => [p] + Lex(rest, false)
              case None => [Lit(s[0])] + Lex(s[1..], s[0] == '\n')
            }
  {
  }

  /** The text re-pointed so far, what is left, and what is left to collect account for the whole. */
  ghost predicate Collected(ps: seq<Piece>, body: string, left: seq<Piece>, needed: seq<Kind>, count: nat) {
    && body + Render(Retargeted(left)) == Render(Retargeted(ps))
    && Needed(left, needed) == Needed(ps, [])
    && count + Count(left) == Count(ps)
    && FirstUnsupported(left) == FirstUnsupported(ps)
  }

  lemma {:induction false} CollectsOne(
    ps: seq<Piece>, body: string, p: Piece, left: seq<Piece>, needed: seq<Kind>, count: nat)
    requires Collected(ps, body, [p] + left, needed, count) && !Unsupported(p)
    ensures Collected(ps, body + Onto(Retarget(p), []), left, Requested(p, needed), count + if Enum(p) then 1 else 0)
  {
    var all := [p] + left;
    assert all[1..] == left;
    RetargetedCons(all);
    OntoAppends(Retarget(p), Render(Retargeted(left)));
  }

  lemma {:induction false} CollectsNothingAtFirst(ps: seq<Piece>)
    ensures Collected(ps, [], ps, [], 0)
  {
  }

  lemma {:induction false} CollectedAll(sup: Support, s: string, body: string, needed: seq<Kind>, count: nat)
    requires Collected(Lex(s, true), body, [], needed, count)
    ensures RewriteStripped(sup, s)
         == if count == 0 then Rewritten(body, 0) else Rewritten(Assembled(sup, body, needed), count)
  {
    assert Retargeted([]) == [] && body + Render([]) == body;
  }

  lemma {:induction false} RejectsAtOnce(
    sup: Support, s: string, body: string, p: Piece, left: seq<Piece>, needed: seq<Kind>, count: nat)
    requires Collected(Lex(s, true), body, [p] + left, needed, count) && Unsupported(p)
    ensures RewriteStripped(sup, s) == Rejected(p.name, Normal(p.bases))
  {
    assert ([p] + left)[0] == p;
  }

  lemma {:induction false} ReplSpells(m: Piece)
    requires m.Class?
    ensures Onto(Retarget(m), []) == "class " + m.name + "(" + Repointed(m.bases).0 + "):"
    ensures Unsupported(m) <==> Foreign(Normal(m.bases))
    ensures if Enum(m) then Repointed(m.bases).1 == KindOf(m.bases) else Repointed(m.bases).1.None?
  {
    hide Normal, IsEnum, Foreign, Repointed, Onto, Retarget;
    EachSpellingIsRepointed(m.name, m.bases);
    KindsAreSpelt(m.bases);
    HeaderText(m.name, Repointed(m.bases).0);
  }

  lemma {:induction false} HeaderText(name: string, bases: string)
    ensures Onto(Class(name, bases), []) == "class " + name + "(" + bases + "):"
  {
    HeaderWithRest(name, bases, []);
    hide *;
    assert "class " + name + "(" + bases + "):" + [] == "class " + name + "(" + bases + "):";
  }

  /** The replacement callback: it refuses an unknown base, requests a known one once, and counts the enum. */
  method Repl(m: Piece, needed: seq<Kind>, count: nat)
    returns (text: Option<string>, requested: seq<Kind>, counted: nat)
    requires m.Class?
    ensures text == if Unsupported(m) then None else Some(Onto(Retarget(m), []))
    ensures requested == Requested(m, needed) && counted == count + if Enum(m) then 1 else 0
    ensures var (base, kind) := Repointed(m.bases);
            && text == (if Foreign(Normal(m.bases)) then None else Some("class " + m.name + "(" + base + "):"))
            && requested == (if kind.Some? && kind.value !in needed then needed + [kind.value] else needed)
            && counted == count + if kind.Some? then 1 else 0
  {
    hide Normal, IsEnum, Foreign, Repointed;
    ReplSpells(m);
    requested, counted := needed, count;
    var bases := Normal(m.bases);
    if !IsEnum(bases) {
      return Some(Onto(m, [])), requested, counted;
    }
    var kind := KindOf(m.bases);
    if kind.None? {
      return None, requested, counted;
    }
    if kind.value !in needed {
      requested := needed + [kind.value];
    }
    counted := count + 1;
    if bases == Tolerant(kind.value) {
      return Some(Onto(m, [])), requested, counted;
    }
    return Some(Onto(Class(m.name, Tolerant(kind.value)), [])), requested, counted;
  }

  /** `rewrite`: the callback collects the needed bases and counts the enums as the headers are found. */
  method Rewrite(sup: Support, t: string) returns (outcome: Outcome)
    requires sup.begin != []
    ensures outcome == RewriteOf(sup, t)
  {
    var text := StripBlock(sup, t);
    var needed: seq<Kind>, count, body := [], 0, [];
    var rest, lineStart := text, true;
    hide Collected, Lex, RewriteStripped, StripBlock;
    CollectsNothingAtFirst(Lex(text, true));
    while rest != []
      invariant Collected(Lex(text, true), body, Lex(rest, lineStart), needed, count)
      decreases |rest|
    {
      hide Retarget, Unsupported, Enum, Requested, Onto;
      LexCons(rest, lineStart);
      var header := if lineStart then HeaderOf(rest) else None;
      if header.None? {
        PlainLit(rest[0], needed);
        CollectsOne(Lex(text, true), body, Lit(rest[0]), Lex(rest[1..], rest[0] == '\n'), needed, count);
        body := body + [rest[0]];
        rest, lineStart := rest[1..], rest[0] == '\n';
      } else {
        var (m, after) := header.value;
        var replaced, requested, counted := Repl(m, needed, count);
        if replaced.None? {
          RejectsAtOnce(sup, text, body, m, Lex(after, false), needed, count);
          return Rejected(m.name, Normal(m.bases));
        }
        CollectsOne(Lex(text, true), body, m, Lex(after, false), needed, count);
        body, needed, count := body + replaced.value, requested, counted;
        rest, lineStart := after, false;
      }
    }
    LexNothing(lineStart);
    CollectedAll(sup, text, body, needed, count);
    if count == 0 {
      return Rewritten(body, 0);
    }
    return Rewritten(Assembled(sup, body, needed), count);
  }

  lemma {:induction false} PlainLit(c: char, needed: seq<Kind>)
    ensures !Unsupported(Lit(c))
    ensures !Enum(Lit(c))
    ensures Requested(Lit(c), needed) == needed
    ensures Onto(Retarget(Lit(c)), []) == [c]
  {
  }

  lemma {:induction false} LexNothing(lineStart: bool)
    ensures Lex([], lineStart) == []
  {
  }
}
