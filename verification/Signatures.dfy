/** Canonical function signatures (internal/clearsign/descriptor.go). A regular
    expression deletes parameter names from a human-readable signature in one
    pass; only the type-only form hashes to the right selector. */
module Signatures {
  import opened Common
  import opened Hex

  // ----- the rewrite \s+[A-Za-z_$][A-Za-z0-9_$]*\s*([,)])  ->  $1

  predicate IsSpace(c: char) {
    c == ' ' || c == '\t' || c == '\n' || c == '\r' || c == 12 as char
  }

  predicate IdentStart(c: char) {
    'A' <= c <= 'Z' || 'a' <= c <= 'z' || c == '_' || c == '$'
  }

  predicate IdentChar(c: char) {
    IdentStart(c) || '0' <= c <= '9'
  }

  predicate IsDelimiter(c: char) {
    c == ',' || c == ')'
  }

  predicate AllSpace(s: string) {
    forall i :: 0 <= i < |s| ==> IsSpace(s[i])
  }

  predicate NoSpace(s: string) {
    forall i :: 0 <= i < |s| ==> !IsSpace(s[i])
  }

  predicate Identifier(s: string) {
    s != "" && IdentStart(s[0]) && forall i :: 0 <= i < |s| ==> IdentChar(s[i])
  }

  /** Length of the longest prefix of white space. */
  function SpaceSpan(s: string): (n: nat)
    ensures n <= |s| && AllSpace(s[..n]) && (n < |s| ==> !IsSpace(s[n]))
  {
    if s == "" || !IsSpace(s[0]) then 0 else 1 + SpaceSpan(s[1..])
  }

  /** Length of the longest prefix of identifier characters. */
  function IdentSpan(s: string): (n: nat)
    ensures n <= |s| && (forall i :: 0 <= i < n ==> IdentChar(s[i])) && (n < |s| ==> !IdentChar(s[n]))
  {
    if s == "" || !IdentChar(s[0]) then 0 else 1 + IdentSpan(s[1..])
  }

  /** Length of the match at the start of s, 0 if there is none. */
  function MatchLen(s: string): (n: nat)
    ensures n <= |s|
  {
    var w := SpaceSpan(s);
    if w == 0 || w == |s| || !IdentStart(s[w]) then 0
    else
      var i := w + IdentSpan(s[w..]);
      var d := i + SpaceSpan(s[i..]);
      if d < |s| && IsDelimiter(s[d]) then d + 1 else 0
  }

  /** Regexp.ReplaceAllString: leftmost matches, left to right, without overlap. */
  function DropNames(s: string): string {
    if s == "" then ""
    else
      var n := MatchLen(s);
      if n == 0 then [s[0]] + DropNames(s[1..]) else [s[n - 1]] + DropNames(s[n..])
  }

  /** strings.ReplaceAll(s, ", ", ",") */
  function TightenCommas(s: string): string {
    if s == "" then ""
    else if ", " <= s then "," + TightenCommas(s[2..])
    else [s[0]] + TightenCommas(s[1..])
  }

  /** strings.ReplaceAll(s, " ", "") */
  function DropBlanks(s: string): string {
    if s == "" then ""
    else if s[0] == ' ' then DropBlanks(s[1..])
    else [s[0]] + DropBlanks(s[1..])
  }

  function CanonicalSignature(sig: string): string {
    DropBlanks(TightenCommas(DropNames(sig)))
  }

  /** keccak4 gives the first four bytes of the Keccak-256 digest. */
  function SelectorForSignature(keccak4: string -> seq<Byte>, sig: string): string {
    "0x" + HexOfBytes(keccak4(CanonicalSignature(sig)))
  }

  // ----- the matcher finds exactly the strings the expression describes

  /** m is w white space, an identifier of length i, v white space, a delimiter. */
  ghost predicate SplitsAs(m: string, w: nat, i: nat, v: nat) {
    |m| == w + i + v + 1 && w > 0 && AllSpace(m[..w]) && Identifier(m[w..w + i]) &&
    AllSpace(m[w + i..w + i + v]) && IsDelimiter(m[w + i + v])
  }

  lemma {:induction false} SpaceSpanOf(a: string, b: string)
    requires AllSpace(a) && (b == "" || !IsSpace(b[0]))
    ensures SpaceSpan(a + b) == |a|
  {
    if a == "" {
      assert a + b == b;
    } else {
      assert (a + b)[1..] == a[1..] + b;
      SpaceSpanOf(a[1..], b);
    }
  }

  lemma {:induction false} IdentSpanOf(a: string, b: string)
    requires (forall i :: 0 <= i < |a| ==> IdentChar(a[i])) && (b == "" || !IdentChar(b[0]))
    ensures IdentSpan(a + b) == |a|
  {
    if a == "" {
      assert a + b == b;
    } else {
      assert (a + b)[1..] == a[1..] + b;
      IdentSpanOf(a[1..], b);
    }
  }

  /** However a prefix of s is split into the four parts, it is the match found:
      the expression is unambiguous, so leftmost-first and leftmost-longest agree. */
  lemma MatchUnique(gap: string, name: string, trail: string, tail: string)
    requires gap != "" && AllSpace(gap) && Identifier(name) && AllSpace(trail)
    requires tail != "" && IsDelimiter(tail[0])
    ensures MatchLen(gap + (name + (trail + tail))) == |gap| + |name| + |trail| + 1
  {
    hide SpaceSpan, IdentSpan, AllSpace;
    var s := gap + (name + (trail + tail));
    Spans(gap, name, trail, tail);
    assert s[|gap|..] == name + (trail + tail);
    assert s[|gap| + |name|..] == trail + tail;
    assert s[|gap|] == name[0] && s[|gap| + |name| + |trail|] == tail[0];
  }

  lemma Spans(gap: string, name: string, trail: string, tail: string)
    requires AllSpace(gap) && Identifier(name) && AllSpace(trail) && tail != "" && IsDelimiter(tail[0])
    ensures SpaceSpan(gap + (name + (trail + tail))) == |gap|
    ensures IdentSpan(name + (trail + tail)) == |name|
    ensures SpaceSpan(trail + tail) == |trail|
  {
    hide SpaceSpan, IdentSpan;
    assert (trail + tail)[0] == if trail == "" then tail[0] else trail[0];
    SpaceSpanOf(gap, name + (trail + tail));
    IdentSpanOf(name, trail + tail);
    SpaceSpanOf(trail, tail);
  }

  lemma MatchFound(s: string) returns (w: nat, i: nat, v: nat)
    requires MatchLen(s) > 0
    ensures SplitsAs(s[..MatchLen(s)], w, i, v)
  {
    w := SpaceSpan(s);
    i := IdentSpan(s[w..]);
    v := SpaceSpan(s[w + i..]);
    var m := s[..MatchLen(s)];
    assert m[..w] == s[..w];
    assert m[w..w + i] == s[w..][..i];
    assert m[w + i..w + i + v] == s[w + i..][..v];
  }

  /** s starts with a match of length n exactly when MatchLen says so. */
  lemma MatchLenCorrect(s: string, n: nat)
    requires 0 < n <= |s|
    ensures MatchLen(s) == n <==> exists w: nat, i: nat, v: nat :: SplitsAs(s[..n], w, i, v)
  {
    hide MatchLen;
    if MatchLen(s) == n {
      var w, i, v := MatchFound(s);
    }
    if w: nat, i: nat, v: nat :| SplitsAs(s[..n], w, i, v) {
      var m := s[..n];
      var tail := s[w + i + v..];
      assert s == m[..w] + (m[w..w + i] + (m[w + i..w + i + v] + tail));
      MatchUnique(m[..w], m[w..w + i], m[w + i..w + i + v], tail);
    }
  }

  // ----- rewriting a string piece by piece

  /** TightenCommas changes nothing that DropBlanks would not. */
  lemma {:induction false} TightenCommasRedundant(s: string)
    ensures DropBlanks(TightenCommas(s)) == DropBlanks(s)
    decreases |s|
  {
    if s == "" {
    } else if ", " <= s {
      TightenCommasRedundant(s[2..]);
      assert TightenCommas(s) == "," + TightenCommas(s[2..]);
      assert s[1..][1..] == s[2..];
    } else {
      TightenCommasRedundant(s[1..]);
    }
  }

  /** CanonicalSignature without the step that TightenCommasRedundant removes. */
  function Canon(s: string): string {
    DropBlanks(DropNames(s))
  }

  lemma KeepChar(s: string)
    requires s != "" && s[0] != ' ' && MatchLen(s) == 0
    ensures Canon(s) == [s[0]] + Canon(s[1..])
  {
    hide MatchLen;
    var t := DropNames(s[1..]);
    assert DropNames(s) == [s[0]] + t;
    assert ([s[0]] + t)[1..] == t;
  }

  lemma {:induction false} KeepText(a: string, rest: string)
    requires NoSpace(a)
    ensures Canon(a + rest) == a + Canon(rest)
  {
    hide Canon, MatchLen;
    if a == "" {
      assert a + rest == rest;
    } else {
      KeepText(a[1..], rest);
      assert (a + rest)[1..] == a[1..] + rest;
      NoMatchAtText(a + rest);
      KeepChar(a + rest);
    }
  }

  lemma NoMatchStep(s: string)
    requires s != "" && s[0] == ' ' && MatchLen(s) == 0
    ensures Canon(s) == Canon(s[1..])
  {
  }

  lemma DropMatch(gap: string, name: string, trail: string, tail: string)
    requires gap != "" && AllSpace(gap) && Identifier(name) && AllSpace(trail)
    requires tail != "" && IsDelimiter(tail[0])
    ensures Canon(gap + (name + (trail + tail))) == Canon(tail)
  {
    hide MatchLen;
    var s := gap + (name + (trail + tail));
    var n := |gap| + |name| + |trail| + 1;
    MatchUnique(gap, name, trail, tail);
    assert s[n - 1] == tail[0] && s[n..] == tail[1..];
    assert DropNames(s) == [tail[0]] + DropNames(tail[1..]);
    assert MatchLen(tail) == 0 by { NoMatchAtText(tail); }
  }

  lemma NoMatchAtText(s: string)
    requires s == "" || !IsSpace(s[0])
    ensures MatchLen(s) == 0
  {
  }

  lemma {:induction false} DropBlanksConcat(a: string, b: string)
    ensures DropBlanks(a + b) == DropBlanks(a) + DropBlanks(b)
  {
    if a == "" {
      assert a + b == b;
    } else {
      assert (a + b)[1..] == a[1..] + b;
      DropBlanksConcat(a[1..], b);
    }
  }

  lemma {:induction false} DropBlanksOfSpace(w: string)
    requires AllSpace(w)
    ensures AllSpace(DropBlanks(w)) && |DropBlanks(w)| <= |w|
    ensures DropBlanks(DropBlanks(w)) == DropBlanks(w)
    ensures DropBlanks(w) == "" <==> forall i :: 0 <= i < |w| ==> w[i] == ' '
  {
    if w != "" {
      DropBlanksOfSpace(w[1..]);
      if w[0] != ' ' {
        assert ([w[0]] + DropBlanks(w[1..]))[1..] == DropBlanks(w[1..]);
      } else {
        assert forall i :: 0 < i < |w| ==> w[i] == w[1..][i - 1];
      }
    }
  }

  /** White space before b would be the start of a match: b is an identifier,
      optional white space and a delimiter. */
  predicate Exposed(b: string) {
    b != "" && IdentStart(b[0]) &&
    var i := IdentSpan(b);
    var d := i + SpaceSpan(b[i..]);
    d < |b| && IsDelimiter(b[d])
  }

  /** Where no match starts, white space only loses its blanks. */
  lemma {:induction false} CanonLead(w: string, b: string)
    requires AllSpace(w) && b != "" && !IsSpace(b[0]) && (w != "" ==> !Exposed(b))
    ensures Canon(w + b) == DropBlanks(w) + Canon(b)
  {
    hide Canon, Exposed;
    var s := w + b;
    if w == "" {
      assert s == b;
    } else {
      SpaceSpanOf(w, b);
      assert s[|w|..] == b;
      assert MatchLen(s) == 0 by { NoMatchBefore(s, |w|, b); }
      assert s[1..] == w[1..] + b;
      CanonLead(w[1..], b);
      if s[0] == ' ' {
        NoMatchStep(s);
      } else {
        KeepChar(s);
      }
    }
  }

  lemma NoMatchBefore(s: string, w: nat, b: string)
    requires SpaceSpan(s) == w <= |s| && s[w..] == b && b != "" && !Exposed(b)
    ensures MatchLen(s) == 0
  {
    hide IdentSpan, SpaceSpan;
    if w > 0 && IdentStart(b[0]) {
      var i := IdentSpan(b);
      assert s[w + i..] == b[i..];
      var d := i + SpaceSpan(b[i..]);
      assert d < |b| ==> s[w + d] == b[d];
    }
  }

  // ----- signatures as trees

  /** A parameter type: an elementary type or a tuple, with array suffixes; Empty
      where nothing stands between two delimiters. */
  datatype Ty = Elem(name: string, dims: string) | Tuple(comps: Params, dims: string) | Empty

  datatype Params = Nil | Cons(head: Param, tail: Params)

  /** A parameter with the white space around it: some before the type, then
      either a name set off by white space or nothing but white space. */
  datatype Param = Param(lead: string, ty: Ty, naming: Naming)

  datatype Naming = Unnamed(trail: string) | Named(gap: string, name: string, after: string)

  datatype Signature = Signature(name: string, params: Params)

  /** "", "[]", "[4][]" and the like. */
  predicate Dimensions(d: string) {
    (d != "" ==> d[0] == '[') && forall i :: 0 <= i < |d| ==> d[i] == '[' || d[i] == ']' || '0' <= d[i] <= '9'
  }

  predicate ValidTy(t: Ty) {
    match t
    case Elem(name, dims) => Identifier(name) && Dimensions(dims)
    case Tuple(comps, dims) => ValidParams(comps) && Dimensions(dims)
    case Empty => true
  }

  predicate ValidParam(p: Param) {
    AllSpace(p.lead) && ValidTy(p.ty) && ValidNaming(p.naming) && (p.ty.Empty? ==> p.naming.Unnamed?)
  }

  predicate ValidParams(ps: Params) {
    ps.Cons? ==> ValidParam(ps.head) && ValidParams(ps.tail)
  }

  predicate ValidNaming(n: Naming) {
    match n
    case Unnamed(trail) => AllSpace(trail)
    case Named(gap, name, after) => gap != "" && AllSpace(gap) && Identifier(name) && AllSpace(after)
  }

  predicate Valid(s: Signature) {
    Identifier(s.name) && ValidParams(s.params)
  }

  function PrintTy(t: Ty): string {
    match t
    case Elem(name, dims) => name + dims
    case Tuple(comps, dims) => "(" + PrintParams(comps) + ")" + dims
    case Empty => ""
  }

  function PrintParams(ps: Params): string {
    match ps
    case Nil => ""
    case Cons(p, Nil) => PrintParam(p)
    case Cons(p, tail) => PrintParam(p) + "," + PrintParams(tail)
  }

  function PrintParam(p: Param): string {
    p.lead + PrintTy(p.ty) + PrintNaming(p.naming)
  }

  function PrintNaming(n: Naming): string {
    match n
    case Unnamed(trail) => trail
    case Named(gap, name, after) => gap + name + after
  }

  function Print(s: Signature): string {
    s.name + "(" + PrintParams(s.params) + ")"
  }

  /** The type-only form. */
  function TypeTy(t: Ty): string {
    match t
    case Elem(name, dims) => name + dims
    case Tuple(comps, dims) => "(" + TypeParams(comps) + ")" + dims
    case Empty => ""
  }

  function TypeParams(ps: Params): string {
    match ps
    case Nil => ""
    case Cons(p, Nil) => TypeTy(p.ty)
    case Cons(p, tail) => TypeTy(p.ty) + "," + TypeParams(tail)
  }

  /** The canonical signature the selector should be computed from. */
  function Types(s: Signature): string {
    s.name + "(" + TypeParams(s.params) + ")"
  }

  // ----- what the rewrite leaves of a tree

  /** The rewrite takes an unnamed elementary type for a parameter name when
      white space precedes it. */
  predicate Eaten(p: Param) {
    p.lead != "" && p.ty.Elem? && p.ty.dims == "" && p.naming.Unnamed?
  }

  function ResidueTy(t: Ty): Ty {
    match t
    case Elem(_, _) => t
    case Tuple(comps, dims) => Tuple(ResidueParams(comps), dims)
    case Empty => Empty
  }

  /** Names go, and blanks, but not other white space. */
  function ResidueParam(p: Param): Param {
    if Eaten(p) then Param("", Empty, Unnamed(""))
    else Param(DropBlanks(p.lead), ResidueTy(p.ty), Unnamed(if p.naming.Unnamed? then DropBlanks(p.naming.trail) else ""))
  }

  function ResidueParams(ps: Params): Params {
    match ps
    case Nil => Nil
    case Cons(p, tail) => Cons(ResidueParam(p), ResidueParams(tail))
  }

  function Residue(s: Signature): Signature {
    Signature(s.name, ResidueParams(s.params))
  }

  lemma {:induction false} ResidueValidTy(t: Ty)
    requires ValidTy(t)
    ensures ValidTy(ResidueTy(t))
    decreases t, 0
  {
    if t.Tuple? {
      ResidueValid(t.comps);
    }
  }

  lemma {:induction false} ResidueValid(ps: Params)
    requires ValidParams(ps)
    ensures ValidParams(ResidueParams(ps))
    decreases ps, 0
  {
    if ps.Cons? {
      ResidueValidTy(ps.head.ty);
      ResidueValid(ps.tail);
      SpacesOf(ps.head);
    }
  }

  function Trail(p: Param): string {
    if p.naming.Unnamed? then p.naming.trail else ""
  }

  lemma SpacesOf(p: Param)
    requires ValidParam(p)
    ensures AllSpace(DropBlanks(p.lead)) && AllSpace(DropBlanks(Trail(p)))
    ensures DropBlanks(DropBlanks(p.lead)) == DropBlanks(p.lead) && DropBlanks(DropBlanks(Trail(p))) == DropBlanks(Trail(p))
    ensures |DropBlanks(p.lead)| <= |p.lead| && |DropBlanks(Trail(p))| <= |Trail(p)|
  {
    DropBlanksOfSpace(p.lead);
    DropBlanksOfSpace(Trail(p));
  }

  // ----- the rewrite on printed trees

  lemma {:induction false} CanonTy(t: Ty, rest: string)
    requires ValidTy(t)
    ensures Canon(PrintTy(t) + rest) == PrintTy(ResidueTy(t)) + Canon(rest)
    decreases t, 0
  {
    hide Canon, MatchLen;
    match t {
      case Elem(name, dims) =>
        KeepText(name + dims, rest);
      case Tuple(comps, dims) =>
        CanonParams(comps, dims + rest);
        CanonTuple(PrintParams(comps), PrintParams(ResidueParams(comps)), dims, rest);
      case Empty =>
        assert "" + rest == rest;
    }
  }

  lemma CanonTuple(inner: string, residue: string, dims: string, rest: string)
    requires Dimensions(dims)
    requires Canon(inner + (")" + (dims + rest))) == residue + ")" + Canon(dims + rest)
    ensures Canon("(" + inner + ")" + dims + rest) == "(" + residue + ")" + dims + Canon(rest)
  {
    hide Canon;
    KeepText(dims, rest);
    KeepText("(", inner + (")" + (dims + rest)));
    assert "(" + inner + ")" + dims + rest == "(" + (inner + (")" + (dims + rest)));
  }

  lemma {:induction false} CanonParams(ps: Params, rest: string)
    requires ValidParams(ps)
    ensures Canon(PrintParams(ps) + (")" + rest)) == PrintParams(ResidueParams(ps)) + ")" + Canon(rest)
    decreases ps, 0
  {
    hide Canon, MatchLen;
    match ps {
      case Nil =>
        KeepText(")", rest);
        assert "" + (")" + rest) == ")" + rest;
      case Cons(p, Nil) =>
        KeepText(")", rest);
        CanonParam(p, ")" + rest);
      case Cons(p, tail) =>
        CanonParams(tail, rest);
        CanonParam(p, "," + (PrintParams(tail) + (")" + rest)));
        CanonJoined(PrintParam(p), PrintParam(ResidueParam(p)), PrintParams(tail), PrintParams(ResidueParams(tail)), rest);
    }
  }

  lemma CanonJoined(here: string, residue: string, more: string, residues: string, rest: string)
    requires Canon(more + (")" + rest)) == residues + ")" + Canon(rest)
    requires var after := "," + (more + (")" + rest)); Canon(here + after) == residue + Canon(after)
    ensures Canon((here + "," + more) + (")" + rest)) == (residue + "," + residues) + ")" + Canon(rest)
  {
    hide Canon;
    KeepText(",", more + (")" + rest));
    assert (here + "," + more) + (")" + rest) == here + ("," + (more + (")" + rest)));
  }

  lemma {:induction false} CanonParam(p: Param, tail: string)
    requires ValidParam(p) && tail != "" && IsDelimiter(tail[0])
    ensures Canon(PrintParam(p) + tail) == PrintParam(ResidueParam(p)) + Canon(tail)
    decreases p.ty, 1
  {
    hide Canon;
    if Eaten(p) {
      DropMatch(p.lead, p.ty.name, p.naming.trail, tail);
      assert PrintParam(p) + tail == p.lead + (p.ty.name + (p.naming.trail + tail));
      assert PrintParam(ResidueParam(p)) == "";
    } else if p.ty.Empty? {
      EmptyDropped(p, tail);
    } else {
      CanonTy(p.ty, PrintNaming(p.naming) + tail);
      PlainParam(p, PrintTy(ResidueTy(p.ty)), tail);
    }
  }

  lemma PlainParam(p: Param, residue: string, tail: string)
    requires ValidParam(p) && tail != "" && IsDelimiter(tail[0]) && !Eaten(p) && !p.ty.Empty?
    requires Canon(PrintTy(p.ty) + (PrintNaming(p.naming) + tail)) == residue + Canon(PrintNaming(p.naming) + tail)
    ensures Canon(PrintParam(p) + tail) ==
            DropBlanks(p.lead) + residue + (if p.naming.Unnamed? then DropBlanks(p.naming.trail) else "") + Canon(tail)
  {
    hide Canon, Exposed, DropBlanks;
    var text := PrintTy(p.ty) + (PrintNaming(p.naming) + tail);
    assert PrintParam(p) + tail == p.lead + text;
    if p.lead != "" {
      TypeNotExposed(p, tail);
    }
    CanonLead(p.lead, text);
    NamingDropped(p.naming, tail);
  }

  lemma EmptyDropped(p: Param, tail: string)
    requires ValidParam(p) && p.ty.Empty? && tail != "" && IsDelimiter(tail[0])
    ensures Canon(PrintParam(p) + tail) == PrintParam(ResidueParam(p)) + Canon(tail)
  {
    hide Canon, MatchLen;
    var w := p.lead + p.naming.trail;
    CanonLead(w, tail);
    DropBlanksConcat(p.lead, p.naming.trail);
    assert PrintParam(p) == w;
  }

  lemma NamingDropped(n: Naming, tail: string)
    requires ValidNaming(n) && tail != "" && IsDelimiter(tail[0])
    ensures Canon(PrintNaming(n) + tail) == (if n.Unnamed? then DropBlanks(n.trail) else "") + Canon(tail)
  {
    hide Canon, MatchLen;
    match n {
      case Unnamed(trail) =>
        CanonLead(trail, tail);
      case Named(gap, name, after) =>
        DropMatch(gap, name, after, tail);
        assert PrintNaming(n) + tail == gap + (name + (after + tail));
    }
  }

  lemma NotExposed(name: string, rest: string)
    requires Identifier(name) && rest != "" && !IdentChar(rest[0])
    requires SpaceSpan(rest) < |rest| ==> !IsDelimiter(rest[SpaceSpan(rest)])
    ensures !Exposed(name + rest)
  {
    hide IdentSpan, SpaceSpan;
    IdentSpanOf(name, rest);
    assert (name + rest)[|name|..] == rest;
  }

  lemma TypeNotExposed(p: Param, tail: string)
    requires ValidParam(p) && !Eaten(p) && p.lead != "" && !p.ty.Empty?
    ensures !Exposed(PrintTy(p.ty) + (PrintNaming(p.naming) + tail))
  {
    hide IdentSpan, Exposed;
    var after := PrintNaming(p.naming) + tail;
    if p.ty.Elem? {
      var name, rest := p.ty.name, p.ty.dims + after;
      assert PrintTy(p.ty) + after == name + rest;
      if p.ty.dims != "" {
        NotExposed(name, rest);
      } else {
        NamedNotDelimited(p.naming, tail);
        assert rest == after;
        NotExposed(name, after);
      }
    } else {
      TupleNotExposed(PrintTy(p.ty) + after);
    }
  }

  lemma TupleNotExposed(text: string)
    requires text != "" && text[0] == '('
    ensures !Exposed(text)
  {
  }

  lemma NamedNotDelimited(n: Naming, tail: string)
    requires n.Named? && ValidNaming(n)
    ensures var s := PrintNaming(n) + tail;
            s != "" && !IdentChar(s[0]) && SpaceSpan(s) < |s| && !IsDelimiter(s[SpaceSpan(s)])
  {
    hide SpaceSpan;
    var Named(gap, ident, after) := n;
    assert PrintNaming(n) + tail == gap + (ident + (after + tail));
    SpaceSpanOf(gap, ident + (after + tail));
  }

  /** The rewrite of a printed tree prints what it leaves of the tree: eaten types,
      names and blanks are gone, everything else stays. */
  lemma CanonicalOfPrint(s: Signature)
    requires Valid(s)
    ensures Valid(Residue(s)) && CanonicalSignature(Print(s)) == Print(Residue(s))
  {
    hide Canon, MatchLen;
    ResidueValid(s.params);
    var inner := PrintParams(s.params) + (")" + "");
    CanonicalIsCanon(Print(s));
    assert Print(s) == (s.name + "(") + inner;
    KeepText(s.name + "(", inner);
    CanonParams(s.params, "");
    assert Canon("") == "" by { CanonUnfold(""); }
  }

  lemma CanonUnfold(s: string)
    ensures Canon(s) == DropBlanks(DropNames(s))
    ensures s == "" ==> Canon(s) == ""
  {
  }

  // ----- when the result is the type-only form

  predicate JustBlanks(w: string) {
    forall i :: 0 <= i < |w| ==> w[i] == ' '
  }

  predicate NoneEatenTy(t: Ty) {
    t.Tuple? ==> NoneEaten(t.comps)
  }

  /** No unnamed elementary type stands after white space. */
  predicate NoneEaten(ps: Params) {
    ps.Cons? ==> !Eaten(ps.head) && NoneEatenTy(ps.head.ty) && NoneEaten(ps.tail)
  }

  predicate NoneLeftTy(t: Ty) {
    t.Tuple? ==> NoneLeft(t.comps)
  }

  /** White space that is not deleted with a name is only blanks. */
  predicate NoneLeft(ps: Params) {
    ps.Cons? ==> NoneLeftAt(ps.head) && NoneLeftTy(ps.head.ty) && NoneLeft(ps.tail)
  }

  predicate NoneLeftAt(p: Param) {
    Eaten(p) || (JustBlanks(p.lead) && JustBlanks(Trail(p)))
  }

  /** Both at once. */
  predicate Clean(ps: Params) {
    NoneEaten(ps) && NoneLeft(ps)
  }

  lemma NoSpaceConcat(a: string, b: string)
    ensures NoSpace(a + b) <==> NoSpace(a) && NoSpace(b)
  {
    if NoSpace(a + b) {
      forall i | 0 <= i < |a| ensures !IsSpace(a[i]) { assert (a + b)[i] == a[i]; }
      forall i | 0 <= i < |b| ensures !IsSpace(b[i]) { assert (a + b)[|a| + i] == b[i]; }
    }
  }

  lemma SpaceOnlyIfEmpty(w: string)
    requires AllSpace(w)
    ensures NoSpace(w) <==> w == ""
  {
    assert w != "" ==> IsSpace(w[0]);
  }

  lemma {:induction false} TypesNoSpaceTy(t: Ty)
    requires ValidTy(t)
    ensures NoSpace(TypeTy(t))
    decreases t
  {
    if t.Tuple? {
      TypesNoSpace(t.comps);
    }
  }

  lemma {:induction false} TypesNoSpace(ps: Params)
    requires ValidParams(ps)
    ensures NoSpace(TypeParams(ps))
    decreases ps
  {
    if ps.Cons? {
      TypesNoSpaceTy(ps.head.ty);
      TypesNoSpace(ps.tail);
    }
  }

  lemma {:induction false} LeftoverTy(t: Ty)
    requires ValidTy(t)
    ensures NoSpace(PrintTy(ResidueTy(t))) <==> NoneLeftTy(t)
    decreases t, 0
  {
    match t {
      case Elem(name, dims) =>
      case Tuple(comps, dims) =>
        Leftover(comps);
        NoSpaceConcat("(", PrintParams(ResidueParams(comps)));
        NoSpaceConcat("(" + PrintParams(ResidueParams(comps)), ")");
        NoSpaceConcat("(" + PrintParams(ResidueParams(comps)) + ")", dims);
      case Empty =>
    }
  }

  lemma {:induction false} LeftoverAt(p: Param)
    requires ValidParam(p)
    ensures NoSpace(PrintParam(ResidueParam(p))) <==> NoneLeftAt(p) && NoneLeftTy(p.ty)
    decreases p.ty, 1
  {
    hide NoSpace;
    if Eaten(p) {
      assert PrintParam(ResidueParam(p)) == "";
      SpaceOnlyIfEmpty("");
    } else {
      var lead, trail := DropBlanks(p.lead), DropBlanks(Trail(p));
      SpacesOf(p);
      DropBlanksOfSpace(p.lead);
      DropBlanksOfSpace(Trail(p));
      SpaceOnlyIfEmpty(lead);
      SpaceOnlyIfEmpty(trail);
      LeftoverTy(p.ty);
      NoSpaceConcat(lead, PrintTy(ResidueTy(p.ty)));
      NoSpaceConcat(lead + PrintTy(ResidueTy(p.ty)), trail);
    }
  }

  /** White space is left exactly where some is not just blanks. */
  lemma {:induction false} Leftover(ps: Params)
    requires ValidParams(ps)
    ensures NoSpace(PrintParams(ResidueParams(ps))) <==> NoneLeft(ps)
    decreases ps, 0
  {
    if ps.Cons? {
      LeftoverAt(ps.head);
      Leftover(ps.tail);
      if ps.tail.Cons? {
        var here, more := PrintParam(ResidueParam(ps.head)), PrintParams(ResidueParams(ps.tail));
        NoSpaceConcat(here, ",");
        NoSpaceConcat(here + ",", more);
      }
    }
  }

  lemma {:induction false} EatenShortensTy(t: Ty)
    requires ValidTy(t) && NoneLeftTy(t)
    ensures |PrintTy(ResidueTy(t))| <= |TypeTy(t)|
    ensures NoneEatenTy(t) ==> PrintTy(ResidueTy(t)) == TypeTy(t)
    ensures !NoneEatenTy(t) ==> |PrintTy(ResidueTy(t))| < |TypeTy(t)|
    decreases t, 0
  {
    if t.Tuple? {
      EatenShortens(t.comps);
    }
  }

  lemma {:induction false} EatenShortensAt(p: Param)
    requires ValidParam(p) && NoneLeftAt(p) && NoneLeftTy(p.ty)
    ensures |PrintParam(ResidueParam(p))| <= |TypeTy(p.ty)|
    ensures !Eaten(p) && NoneEatenTy(p.ty) ==> PrintParam(ResidueParam(p)) == TypeTy(p.ty)
    ensures Eaten(p) || !NoneEatenTy(p.ty) ==> |PrintParam(ResidueParam(p))| < |TypeTy(p.ty)|
    decreases p.ty, 1
  {
    EatenShortensTy(p.ty);
    if !Eaten(p) {
      DropBlanksOfSpace(p.lead);
      DropBlanksOfSpace(Trail(p));
      assert PrintParam(ResidueParam(p)) == "" + PrintTy(ResidueTy(p.ty)) + "";
    }
  }

  lemma {:induction false} EatenShortens(ps: Params)
    requires ValidParams(ps) && NoneLeft(ps)
    ensures |PrintParams(ResidueParams(ps))| <= |TypeParams(ps)|
    ensures NoneEaten(ps) ==> PrintParams(ResidueParams(ps)) == TypeParams(ps)
    ensures !NoneEaten(ps) ==> |PrintParams(ResidueParams(ps))| < |TypeParams(ps)|
    decreases ps, 0
  {
    if ps.Cons? {
      EatenShortensAt(ps.head);
      EatenShortens(ps.tail);
    }
  }

  /** CanonicalSignature returns exactly the type-only form if and only if no
      unnamed elementary type stands after white space, and what white space
      stands before a type or after an unnamed one is only blanks. */
  lemma CanonicalIffClean(s: Signature)
    requires Valid(s)
    ensures CanonicalSignature(Print(s)) == Types(s) <==> Clean(s.params)
  {
    hide CanonicalSignature;
    CanonicalOfPrint(s);
    Leftover(s.params);
    TypesNoSpace(s.params);
    var out, types := PrintParams(ResidueParams(s.params)), TypeParams(s.params);
    assert (s.name + "(" + out + ")")[|s.name| + 1..|s.name| + 1 + |out|] == out;
    assert (s.name + "(" + types + ")")[|s.name| + 1..|s.name| + 1 + |types|] == types;
    if NoneLeft(s.params) {
      EatenShortens(s.params);
    }
  }

  predicate AllNamedTy(t: Ty) {
    t.Tuple? ==> AllNamed(t.comps)
  }

  predicate AllNamed(ps: Params) {
    ps.Cons? ==> ps.head.naming.Named? && AllNamedTy(ps.head.ty) && AllNamed(ps.tail)
  }

  predicate LeadsBlankTy(t: Ty) {
    t.Tuple? ==> LeadsBlank(t.comps)
  }

  predicate LeadsBlank(ps: Params) {
    ps.Cons? ==> JustBlanks(ps.head.lead) && LeadsBlankTy(ps.head.ty) && LeadsBlank(ps.tail)
  }

  lemma {:induction false} NamedCleanTy(t: Ty)
    requires AllNamedTy(t)
    ensures NoneEatenTy(t) && (NoneLeftTy(t) <==> LeadsBlankTy(t))
    decreases t, 0
  {
    if t.Tuple? {
      NamedClean(t.comps);
    }
  }

  lemma {:induction false} NamedClean(ps: Params)
    requires AllNamed(ps)
    ensures NoneEaten(ps) && (NoneLeft(ps) <==> LeadsBlank(ps))
    decreases ps, 0
  {
    if ps.Cons? {
      NamedCleanTy(ps.head.ty);
      NamedClean(ps.tail);
    }
  }

  /** With a name on every parameter, however it is set off, the result is the type-only
      form exactly when only blanks stand before the types. */
  lemma CanonicalOfNamed(s: Signature)
    requires Valid(s) && AllNamed(s.params)
    ensures CanonicalSignature(Print(s)) == Types(s) <==> LeadsBlank(s.params)
  {
    NamedClean(s.params);
    CanonicalIffClean(s);
  }

  predicate SameTyButNames(t: Ty, t': Ty) {
    if t.Tuple? && t'.Tuple? then t.dims == t'.dims && SameButNames(t.comps, t'.comps) else t == t'
  }

  /** The same parameters, some of them under other names or set off in another way. */
  predicate SameButNames(ps: Params, ps': Params) {
    (ps.Cons? <==> ps'.Cons?) &&
    (ps.Cons? ==>
       ps.head.lead == ps'.head.lead && SameTyButNames(ps.head.ty, ps'.head.ty) &&
       (ps.head.naming == ps'.head.naming || (ps.head.naming.Named? && ps'.head.naming.Named?)) &&
       SameButNames(ps.tail, ps'.tail))
  }

  lemma {:induction false} RenamedResidueTy(t: Ty, t': Ty)
    requires SameTyButNames(t, t')
    ensures ResidueTy(t) == ResidueTy(t')
    decreases t, 0
  {
    if t.Tuple? && t'.Tuple? {
      RenamedResidue(t.comps, t'.comps);
    }
  }

  lemma {:induction false} RenamedResidue(ps: Params, ps': Params)
    requires SameButNames(ps, ps')
    ensures ResidueParams(ps) == ResidueParams(ps')
    decreases ps, 0
  {
    if ps.Cons? {
      RenamedResidueTy(ps.head.ty, ps'.head.ty);
      RenamedResidue(ps.tail, ps'.tail);
    }
  }

  /** Renaming parameters never changes the selector, whatever white space there is. */
  lemma RenamingKeepsSelector(keccak4: string -> seq<Byte>, s: Signature, s': Signature)
    requires Valid(s) && Valid(s') && s.name == s'.name && SameButNames(s.params, s'.params)
    ensures SelectorForSignature(keccak4, Print(s)) == SelectorForSignature(keccak4, Print(s'))
  {
    hide CanonicalSignature, Print;
    CanonicalOfPrint(s);
    CanonicalOfPrint(s');
    RenamedResidue(s.params, s'.params);
  }

  /** A clean signature has the selector of its type-only form. */
  lemma CleanSelector(keccak4: string -> seq<Byte>, s: Signature)
    requires Valid(s) && Clean(s.params)
    ensures SelectorForSignature(keccak4, Print(s)) == "0x" + HexOfBytes(keccak4(Types(s)))
  {
    hide CanonicalSignature, Print, Types;
    CanonicalIffClean(s);
  }

  // ----- when a second pass changes nothing

  /** With its name gone, the type will be taken for a name. */
  predicate Fragile(p: Param) {
    p.naming.Named? && p.ty.Elem? && p.ty.dims == "" && !JustBlanks(p.lead)
  }

  predicate NoneFragileTy(t: Ty) {
    t.Tuple? ==> NoneFragile(t.comps)
  }

  predicate NoneFragile(ps: Params) {
    ps.Cons? ==> !Fragile(ps.head) && NoneFragileTy(ps.head.ty) && NoneFragile(ps.tail)
  }

  lemma {:induction false} FragileIsEatenNextTy(t: Ty)
    requires ValidTy(t)
    ensures NoneEatenTy(ResidueTy(t)) <==> NoneFragileTy(t)
    decreases t, 0
  {
    if t.Tuple? {
      FragileIsEatenNext(t.comps);
    }
  }

  lemma {:induction false} FragileIsEatenNext(ps: Params)
    requires ValidParams(ps)
    ensures NoneEaten(ResidueParams(ps)) <==> NoneFragile(ps)
    decreases ps, 0
  {
    if ps.Cons? {
      DropBlanksOfSpace(ps.head.lead);
      assert Eaten(ResidueParam(ps.head)) <==> Fragile(ps.head);
      FragileIsEatenNextTy(ps.head.ty);
      FragileIsEatenNext(ps.tail);
    }
  }

  /** Residues have no names and no blanks left. */
  predicate BareTy(t: Ty) {
    t.Tuple? ==> Bare(t.comps)
  }

  predicate Bare(ps: Params) {
    ps.Cons? ==>
      ps.head.naming.Unnamed? && DropBlanks(ps.head.lead) == ps.head.lead &&
      DropBlanks(ps.head.naming.trail) == ps.head.naming.trail && BareTy(ps.head.ty) && Bare(ps.tail)
  }

  lemma {:induction false} ResidueBareTy(t: Ty)
    requires ValidTy(t)
    ensures BareTy(ResidueTy(t))
    decreases t, 0
  {
    if t.Tuple? {
      ResidueBare(t.comps);
    }
  }

  lemma {:induction false} ResidueBare(ps: Params)
    requires ValidParams(ps)
    ensures Bare(ResidueParams(ps))
    decreases ps, 0
  {
    if ps.Cons? {
      SpacesOf(ps.head);
      ResidueBareTy(ps.head.ty);
      ResidueBare(ps.tail);
    }
  }

  lemma {:induction false} SecondPassTy(t: Ty)
    requires ValidTy(t) && BareTy(t)
    ensures |PrintTy(ResidueTy(t))| <= |PrintTy(t)|
    ensures NoneEatenTy(t) ==> ResidueTy(t) == t
    ensures !NoneEatenTy(t) ==> |PrintTy(ResidueTy(t))| < |PrintTy(t)|
    decreases t, 0
  {
    if t.Tuple? {
      SecondPass(t.comps);
    }
  }

  lemma {:induction false} SecondPass(ps: Params)
    requires ValidParams(ps) && Bare(ps)
    ensures |PrintParams(ResidueParams(ps))| <= |PrintParams(ps)|
    ensures NoneEaten(ps) ==> ResidueParams(ps) == ps
    ensures !NoneEaten(ps) ==> |PrintParams(ResidueParams(ps))| < |PrintParams(ps)|
    decreases ps, 0
  {
    if ps.Cons? {
      SecondPassTy(ps.head.ty);
      SecondPass(ps.tail);
    }
  }

  /** The rewrite of a printed tree is a fixed point of the rewrite if and only if no
      named elementary type without dimensions stands after other white space than blanks. */
  lemma IdempotentIffNoneFragile(s: Signature)
    requires Valid(s)
    ensures CanonicalSignature(CanonicalSignature(Print(s))) == CanonicalSignature(Print(s)) <==> NoneFragile(s.params)
  {
    hide CanonicalSignature;
    CanonicalOfPrint(s);
    CanonicalOfPrint(Residue(s));
    FragileIsEatenNext(s.params);
    ResidueBare(s.params);
    SecondPass(ResidueParams(s.params));
  }

  /** f(address, uint256), with no parameter named. */
  function UnnamedSignature(): Signature {
    Signature("f", Cons(Param("", Elem("address", ""), Unnamed("")),
                   Cons(Param(" ", Elem("uint256", ""), Unnamed("")), Nil)))
  }

  /** f(address, uint256) loses its second type. */
  lemma UnnamedExample()
    ensures CanonicalSignature(Print(UnnamedSignature())) == "f(address,)"
    ensures Types(UnnamedSignature()) == "f(address,uint256)"
  {
    hide CanonicalSignature;
    var s := UnnamedSignature();
    UnnamedResidue();
    assert Valid(s);
    CanonicalOfPrint(s);
  }

  lemma OfTwo(name: string, p: Param, q: Param)
    ensures var s := Signature(name, Cons(p, Cons(q, Nil)));
            Residue(s) == Signature(name, Cons(ResidueParam(p), Cons(ResidueParam(q), Nil))) &&
            Print(s) == name + "(" + (PrintParam(p) + "," + PrintParam(q)) + ")" &&
            Types(s) == name + "(" + (TypeTy(p.ty) + "," + TypeTy(q.ty)) + ")"
  {
    hide ResidueParam, PrintParam, TypeTy;
    var rest := Cons(q, Nil);
    assert PrintParams(rest) == PrintParam(q) && TypeParams(rest) == TypeTy(q.ty);
    assert ResidueParams(rest) == Cons(ResidueParam(q), Nil);
  }

  lemma UnnamedParts(p: Param, q: Param)
    requires p == Param("", Elem("address", ""), Unnamed("")) && q == Param(" ", Elem("uint256", ""), Unnamed(""))
    ensures ResidueParam(p) == p && ResidueParam(q) == Param("", Empty, Unnamed(""))
    ensures PrintParam(p) == "address" && PrintParam(ResidueParam(q)) == ""
    ensures TypeTy(p.ty) == "address" && TypeTy(q.ty) == "uint256"
  {
  }

  lemma Bracketed(a: string, b: string)
    requires a == "address"
    ensures b == "" ==> "f" + "(" + (a + "," + b) + ")" == "f(address,)"
    ensures b == "uint256" ==> "f" + "(" + (a + "," + b) + ")" == "f(address,uint256)"
  {
  }

  lemma UnnamedResidue()
    ensures Print(Residue(UnnamedSignature())) == "f(address,)"
    ensures Types(UnnamedSignature()) == "f(address,uint256)"
  {
    hide Residue, Print, Types, PrintParam, PrintParams, TypeParams, TypeTy, ResidueParam, ResidueParams;
    var s := UnnamedSignature();
    var p, q := s.params.head, s.params.tail.head;
    UnnamedParts(p, q);
    OfTwo("f", p, q);
    OfTwo("f", p, ResidueParam(q));
    assert Residue(s) == Signature("f", Cons(p, Cons(ResidueParam(q), Nil)));
    Bracketed(PrintParam(p), PrintParam(ResidueParam(q)));
    Bracketed(TypeTy(p.ty), TypeTy(q.ty));
  }

  // ----- the character classes, seen from outside

  lemma CanonStart(rest: string)
    ensures CanonicalSignature("f(u" + rest) == "f(u" + Canon(rest)
  {
    hide Canon;
    CanonicalIsCanon("f(u" + rest);
    KeepText("f(u", rest);
  }

  lemma CanonOfText(s: string)
    requires NoSpace(s)
    ensures Canon(s) == s
  {
    hide Canon;
    CanonUnfold("");
    KeepText(s, "");
    assert s + "" == s;
  }

  /** A single character after the blank is a name exactly when it is a letter,
      an underscore or a dollar sign. */
  lemma NameStarts(c: char)
    requires c != ' '
    ensures CanonicalSignature("f(u " + [c] + ")") == "f(u)" <==>
            'A' <= c <= 'Z' || 'a' <= c <= 'z' || c == '_' || c == '$'
  {
    hide Canon, CanonicalSignature;
    var rest := " " + [c] + ")";
    assert "f(u " + [c] + ")" == "f(u" + rest;
    CanonStart(rest);
    CanonOfText(")");
    if 'A' <= c <= 'Z' || 'a' <= c <= 'z' || c == '_' || c == '$' {
      DropMatch(" ", [c], "", ")");
      assert rest == " " + ([c] + ("" + ")"));
      assert "f(u" + ")" == "f(u)";
    } else {
      NotAName(c);
      assert ("f(u" + ([c] + ")"))[3] == c && |"f(u" + ([c] + ")")| == 5;
    }
  }

  lemma NotAName(c: char)
    requires c != ' ' && !('A' <= c <= 'Z' || 'a' <= c <= 'z' || c == '_' || c == '$')
    ensures Canon(" " + [c] + ")") == [c] + ")"
  {
    hide Canon;
    CanonOfText(")");
    if IsSpace(c) {
      CanonLead(" " + [c], ")");
      assert DropBlanks(" " + [c]) == [c] by { DropBlanksConcat(" ", [c]); }
    } else {
      var b := [c] + ")";
      CanonLead(" ", b);
      CanonOfText(b);
      assert " " + b == " " + [c] + ")";
    }
  }

  /** After a first letter a name goes on with letters, digits, underscores and dollar
      signs, and may be followed by white space. */
  lemma NameGoesOn(c: char)
    ensures CanonicalSignature("f(u a" + [c] + ")") == "f(u)" <==>
            'A' <= c <= 'Z' || 'a' <= c <= 'z' || c == '_' || c == '$' || '0' <= c <= '9' ||
            c in {' ', '\t', '\n', '\r', 12 as char}
  {
    hide Canon, CanonicalSignature;
    var rest := " a" + [c] + ")";
    assert "f(u a" + [c] + ")" == "f(u" + rest;
    CanonStart(rest);
    CanonOfText(")");
    if 'A' <= c <= 'Z' || 'a' <= c <= 'z' || c == '_' || c == '$' || '0' <= c <= '9' {
      DropMatch(" ", "a" + [c], "", ")");
      assert rest == " " + (("a" + [c]) + ("" + ")"));
      assert "f(u" + ")" == "f(u)";
    } else if c in {' ', '\t', '\n', '\r', 12 as char} {
      DropMatch(" ", "a", [c], ")");
      assert rest == " " + ("a" + ([c] + ")"));
      assert "f(u" + ")" == "f(u)";
    } else {
      NameEnds(c);
    }
  }

  lemma NameEnds(c: char)
    requires !('A' <= c <= 'Z' || 'a' <= c <= 'z' || c == '_' || c == '$' || '0' <= c <= '9')
    requires c !in {' ', '\t', '\n', '\r', 12 as char}
    ensures "f(u" + Canon(" a" + [c] + ")") != "f(u)"
  {
    hide Canon;
    if c == ',' || c == ')' {
      CutShort(c);
    } else {
      RunsOn(c);
    }
    assert |"f(u" + Canon(" a" + [c] + ")")| == 3 + |Canon(" a" + [c] + ")")|;
  }

  lemma CutShort(c: char)
    requires c == ',' || c == ')'
    ensures |Canon(" a" + [c] + ")")| == 2
  {
    hide Canon;
    var tail := [c] + ")";
    DropMatch(" ", "a", "", tail);
    CanonOfText(tail);
    assert " a" + [c] + ")" == " " + ("a" + ("" + tail));
  }

  lemma RunsOn(c: char)
    requires !IdentChar(c) && !IsSpace(c) && !IsDelimiter(c)
    ensures |Canon(" a" + [c] + ")")| == 3
  {
    hide Canon, Exposed;
    var rest := [c] + ")";
    var b := "a" + rest;
    assert SpaceSpan(rest) == 0;
    assert !Exposed(b) by { NotExposed("a", rest); }
    CanonLead(" ", b);
    CanonOfText(b);
    assert " " + b == " a" + [c] + ")";
  }

  /** A name is only one in front of a comma or a closing parenthesis. */
  lemma NameDelimited(c: char)
    requires c != ' '
    ensures CanonicalSignature("f(u v" + [c]) == "f(u" + [c] <==> c == ',' || c == ')'
  {
    hide Canon, CanonicalSignature;
    var rest := " v" + [c];
    assert "f(u v" + [c] == "f(u" + rest;
    CanonStart(rest);
    if c == ',' || c == ')' {
      DropMatch(" ", "v", "", [c]);
      CanonOfText([c]);
      assert rest == " " + ("v" + ("" + [c]));
    } else {
      Undelimited(c);
      assert ("f(u" + ("v" + [c]))[3] == 'v' && |"f(u" + ("v" + [c])| == 5;
    }
  }

  lemma Undelimited(c: char)
    requires c != ' ' && c != ',' && c != ')'
    ensures Canon(" v" + [c]) == "v" + [c]
  {
    hide Canon;
    var b := "v" + [c];
    assert !Exposed(b) by { NothingFollows(c); }
    CanonLead(" ", b);
    assert " " + b == " v" + [c];
    if IsSpace(c) {
      KeepText("v", [c]);
      LoneSpace(c);
    } else {
      CanonOfText(b);
    }
  }

  lemma LoneSpace(c: char)
    requires IsSpace(c) && c != ' '
    ensures Canon([c]) == [c]
  {
    hide Canon;
    SpaceSpanOf([c], "");
    assert [c] + "" == [c] && [c][1..] == "";
    KeepChar([c]);
    CanonUnfold("");
  }

  lemma NothingFollows(c: char)
    requires c != ',' && c != ')'
    ensures !Exposed("v" + [c])
  {
    var b := "v" + [c];
    if IdentChar(c) {
      IdentSpanOf(b, "");
      assert b + "" == b && b[2..] == "";
    } else {
      IdentSpanOf("v", [c]);
      assert b[1..] == [c];
      assert [c][1..] == "";
    }
  }

  function TransferSignature(): Signature {
    Signature("transfer", Cons(Param("", Elem("address", ""), Named(" ", "_to", "")),
                          Cons(Param(" ", Elem("uint256", ""), Named(" ", "_value", "")), Nil)))
  }

  /** The signature the source gives as its example. */
  lemma TransferExample()
    ensures CanonicalSignature("transfer(address _to, uint256 _value)") == "transfer(address,uint256)"
  {
    hide CanonicalSignature, Types, Print;
    var s := TransferSignature();
    TransferPrint();
    CanonicalOfNamed(s);
    assert LeadsBlank(s.params);
  }

  lemma TransferPrint()
    ensures Print(TransferSignature()) == "transfer(address _to, uint256 _value)"
    ensures Types(TransferSignature()) == "transfer(address,uint256)"
    ensures Valid(TransferSignature()) && AllNamed(TransferSignature().params)
  {
    hide Print, Types, PrintParam, TypeTy, PrintParams, TypeParams, Residue;
    var p, q := TransferSignature().params.head, TransferSignature().params.tail.head;
    OfTwo("transfer", p, q);
    TransferParams(p, q);
    TransferText(PrintParam(p), PrintParam(q));
    TransferTypes(TypeTy(p.ty), TypeTy(q.ty));
  }

  lemma TransferParams(p: Param, q: Param)
    requires p == TransferSignature().params.head && q == TransferSignature().params.tail.head
    ensures PrintParam(p) == "address _to" && PrintParam(q) == " uint256 _value"
    ensures TypeTy(p.ty) == "address" && TypeTy(q.ty) == "uint256"
  {
  }

  lemma TransferText(a: string, b: string)
    requires a == "address _to" && b == " uint256 _value"
    ensures "transfer" + "(" + (a + "," + b) + ")" == "transfer(address _to, uint256 _value)"
  {
  }

  lemma TransferTypes(a: string, b: string)
    requires a == "address" && b == "uint256"
    ensures "transfer" + "(" + (a + "," + b) + ")" == "transfer(address,uint256)"
  {
  }

  // ----- text without white space, idempotence

  /** A signature without white space is left alone. */
  lemma CanonicalOfCompact(s: string)
    requires NoSpace(s)
    ensures CanonicalSignature(s) == s
  {
    hide Canon;
    CanonicalIsCanon(s);
    CanonUnfold("");
    KeepText(s, "");
    assert s + "" == s;
  }

  predicate OnlyBlanks(s: string) {
    forall i :: 0 <= i < |s| && IsSpace(s[i]) ==> s[i] == ' '
  }

  lemma {:induction false} DropNamesKeepsBlanks(s: string)
    requires OnlyBlanks(s)
    ensures OnlyBlanks(DropNames(s))
    decreases |s|
  {
    hide MatchLen;
    if s != "" {
      var n := MatchLen(s);
      if n == 0 {
        DropNamesKeepsBlanks(s[1..]);
      } else {
        DropNamesKeepsBlanks(s[n..]);
      }
    }
  }

  lemma {:induction false} DropBlanksLeavesNone(s: string)
    requires OnlyBlanks(s)
    ensures NoSpace(DropBlanks(s))
  {
    if s != "" {
      DropBlanksLeavesNone(s[1..]);
    }
  }

  /** On text whose only white space is the blank, the rewrite is idempotent. */
  lemma CanonicalIdempotent(s: string)
    requires OnlyBlanks(s)
    ensures NoSpace(CanonicalSignature(s))
    ensures CanonicalSignature(CanonicalSignature(s)) == CanonicalSignature(s)
  {
    TightenCommasRedundant(DropNames(s));
    DropNamesKeepsBlanks(s);
    DropBlanksLeavesNone(DropNames(s));
    CanonicalOfCompact(CanonicalSignature(s));
  }

  /** With a tab in it the text can change again: f(<tab>u v) goes to f(<tab>u) and then to f(). */
  lemma TabExample()
    ensures CanonicalSignature("f(\tu v)") == "f(\tu)"
    ensures CanonicalSignature("f(\tu)") == "f()"
  {
    hide CanonicalSignature, Canon;
    TabFirstPass();
    TabSecondPass();
    CanonicalIsCanon("f(\tu v)");
    CanonicalIsCanon("f(\tu)");
  }

  lemma CanonicalIsCanon(s: string)
    ensures CanonicalSignature(s) == Canon(s)
  {
    TightenCommasRedundant(DropNames(s));
  }

  lemma TabFirstPass()
    ensures Canon("f(\tu v)") == "f(\tu)"
  {
    hide Canon, MatchLen;
    TabStays();
    KeepText("f(", "\tu v)");
    KeepText("u", " v)");
    DropMatch(" ", "v", "", ")");
    KeepText(")", "");
    CanonUnfold("");
    assert "f(" + "\tu v)" == "f(\tu v)" && "u" + " v)" == "u v)" && ")" + "" == ")";
    assert " " + ("v" + ("" + ")")) == " v)";
  }

  lemma TabStays()
    ensures Canon("\tu v)") == "\t" + Canon("u v)")
  {
    hide Canon, MatchLen, Exposed, SpaceSpan;
    var s := "\tu v)";
    SpaceSpanOf("\t", "u v)");
    SpaceSpanOf(" ", "v)");
    assert "\t" + "u v)" == s && "u" + " v)" == s[1..] == "u v)" && " " + "v)" == " v)";
    NotExposed("u", " v)");
    NoMatchBefore(s, 1, "u v)");
    KeepChar(s);
  }

  lemma TabSecondPass()
    ensures Canon("f(\tu)") == "f()"
  {
    hide Canon, MatchLen;
    KeepText("f(", "\tu)");
    assert "f(" + "\tu)" == "f(\tu)";
    DropMatch("\t", "u", "", ")");
    assert "\t" + ("u" + ("" + ")")) == "\tu)" && ")" + "" == ")";
    KeepText(")", "");
    CanonUnfold("");
  }
}
