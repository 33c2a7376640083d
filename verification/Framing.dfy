/** How the pool connection cuts a receive buffer into JSON objects by counting braces outside
    strings. */
module Framing {
  import opened Options

  /** The scanner's memory while it looks for the end of an object. */
  datatype Scan = Scan(depth: int, inString: bool, escaped: bool)

  function Feed(s: Scan, c: char): Scan {
    if s.escaped then s.(escaped := false)
    else if c == '\\' then s.(escaped := true)
    else if c == '"' then s.(inString := !s.inString)
    else if s.inString then s
    else if c == '{' then s.(depth := s.depth + 1)
    else if c == '}' then s.(depth := s.depth - 1)
    else s
  }

  predicate Closes(s: Scan, c: char) {
    c == '}' && !s.escaped && !s.inString && s.depth == 1
  }

  /** The position just after the brace that closes the object, looking from position k on. */
  function FindEnd(text: string, k: nat, s: Scan): (e: Option<nat>)
    requires k <= |text|
    ensures e.Some? ==> k < e.value <= |text|
    decreases |text| - k
  {
    if k == |text| then None
    else if Closes(s, text[k]) then Some(k + 1)
    else FindEnd(text, k + 1, Feed(s, text[k]))
  }

  const OUTSIDE: Scan := Scan(0, false, false)

  /** The objects a buffer is cut into: what precedes an opening brace is skipped, and an object
      without its end stops the scan. */
  function Frames(text: string): seq<string>
    decreases |text|
  {
    if text == "" then []
    else if text[0] != '{' then Frames(text[1..])
    else
      match FindEnd(text, 0, OUTSIDE)
      case None => []
      case Some(e) => [text[..e]] + Frames(text[e..])
  }

  lemma {:induction false} FindEndShift(text: string, from: nat, k: nat, s: Scan)
    requires from <= k <= |text|
    ensures match FindEnd(text[from..], k - from, s)
            case None => FindEnd(text, k, s) == None
            case Some(e) => FindEnd(text, k, s) == Some(from + e)
    decreases |text| - k
  {
    if k < |text| && !Closes(s, text[k]) {
      FindEndShift(text, from, k + 1, Feed(s, text[k]));
    }
  }

  /** The receive loop: it hands on the objects of the buffer one after another, and its position
      only moves forward. */
  method ScanBuffer(message: string) returns (objects: seq<string>)
    ensures objects == Frames(message)
  {
    objects := [];
    var pos := 0;
    while pos < |message|
      invariant 0 <= pos <= |message|
      invariant objects + Frames(message[pos..]) == Frames(message)
      decreases |message| - pos
    {
      while pos < |message| && (message[pos] == ' ' || message[pos] == '\n' || message[pos] == '\r')
        invariant 0 <= pos <= |message|
        invariant objects + Frames(message[pos..]) == Frames(message)
      {
        assert message[pos..][1..] == message[pos + 1..];
        pos := pos + 1;
      }
      if pos >= |message| {
        break;
      }
      if message[pos] != '{' {
        assert message[pos..][1..] == message[pos + 1..];
        pos := pos + 1;
        continue;
      }
      var jsonStart := pos;
      var jsonEnd, braceCount := FindClosingBrace(message, pos);
      if braceCount != 0 {
        break;
      }
      assert message[pos..][..jsonEnd - pos] == message[jsonStart..jsonEnd];
      assert message[pos..][jsonEnd - pos..] == message[jsonEnd..];
      assert Frames(message[pos..]) == [message[jsonStart..jsonEnd]] + Frames(message[jsonEnd..]);
      objects := objects + [message[jsonStart..jsonEnd]];
      pos := jsonEnd;
    }
  }

  method FindClosingBrace(message: string, pos: nat) returns (jsonEnd: nat, braceCount: int)
    requires pos < |message| && message[pos] == '{'
    ensures braceCount == 0 <==> FindEnd(message[pos..], 0, OUTSIDE).Some?
    ensures braceCount == 0 ==> FindEnd(message[pos..], 0, OUTSIDE) == Some(jsonEnd - pos)
  {
    jsonEnd, braceCount := pos, 0;
    var inString, escaped := false, false;
    while jsonEnd < |message|
      invariant pos <= jsonEnd <= |message|
      invariant if jsonEnd == pos then braceCount == 0 && !inString && !escaped else braceCount >= 1
      invariant FindEnd(message, jsonEnd, Scan(braceCount, inString, escaped)) == FindEnd(message, pos, OUTSIDE)
    {
      var c := message[jsonEnd];
      if escaped {
        escaped := false;
      } else if c == '\\' {
        escaped := true;
      } else if c == '"' {
        inString := !inString;
      } else if !inString {
        if c == '{' {
          braceCount := braceCount + 1;
        } else if c == '}' {
          braceCount := braceCount - 1;
          if braceCount == 0 {
            jsonEnd := jsonEnd + 1;
            break;
          }
        }
      }
      jsonEnd := jsonEnd + 1;
    }
    FindEndShift(message, pos, pos, OUTSIDE);
  }

  // ---------------------------------------------------------------- JSON texts (RFC 8259)

  /** The characters of a JSON string (section 7). */
  datatype Piece = Raw(c: char) | Escape(c: char) | Unicode(digits: string)

  /** JSON values with the white space they are printed with (sections 2 to 5). */
  datatype Json =
    | Atom(text: string)
    | Text(pieces: seq<Piece>)
    | Array(space: string, items: Items)
    | Object(space: string, members: Members)

  datatype Items = NoItems | Item(before: string, value: Json, after: string, rest: Items)

  datatype Members =
    | NoMembers
    | Member(before: string, name: seq<Piece>, afterName: string, beforeValue: string, value: Json, after: string,
             rest: Members)

  function PrintPieces(pieces: seq<Piece>): string {
    if pieces == [] then "" else
      (match pieces[0]
       case Raw(c) => [c]
       case Escape(c) => ['\\', c]
       case Unicode(h) => "\\u" + h)
      + PrintPieces(pieces[1..])
  }

  function PrintText(pieces: seq<Piece>): string {
    "\"" + PrintPieces(pieces) + "\""
  }

  function Print(j: Json): string {
    match j
    case Atom(t) => t
    case Text(p) => PrintText(p)
    case Array(w, items) => "[" + w + PrintItems(items) + "]"
    case Object(w, members) => "{" + w + PrintMembers(members) + "}"
  }

  function PrintItems(items: Items): string {
    match items
    case NoItems => ""
    case Item(b, v, a, rest) => b + Print(v) + a + (if rest == NoItems then "" else ",") + PrintItems(rest)
  }

  function PrintMembers(members: Members): string {
    match members
    case NoMembers => ""
    case Member(b, n, an, bv, v, a, rest) =>
      b + PrintText(n) + an + ":" + bv + Print(v) + a + (if rest == NoMembers then "" else ",") + PrintMembers(rest)
  }

  predicate Space(w: string) {
    forall i | 0 <= i < |w| :: w[i] in " \t\n\r"
  }

  predicate PieceOk(p: Piece) {
    match p
    case Raw(c) => c >= ' ' && c != '"' && c != '\\'
    case Escape(c) => c in "\"\\/bfnrt"
    case Unicode(h) => |h| == 4 && forall i | 0 <= i < 4 :: HexDigit(h[i])
  }

  predicate HexDigit(c: char) {
    '0' <= c <= '9' || 'a' <= c <= 'f' || 'A' <= c <= 'F'
  }

  predicate TextOk(pieces: seq<Piece>) {
    forall i | 0 <= i < |pieces| :: PieceOk(pieces[i])
  }

  /** Literals and numbers: nothing but letters, digits, signs and points. */
  predicate AtomOk(t: string) {
    forall i | 0 <= i < |t| :: AtomChar(t[i])
  }

  predicate AtomChar(c: char) {
    'a' <= c <= 'z' || 'A' <= c <= 'Z' || '0' <= c <= '9' || c == '+' || c == '-' || c == '.'
  }

  predicate Ok(j: Json) {
    match j
    case Atom(t) => AtomOk(t)
    case Text(p) => TextOk(p)
    case Array(w, items) => Space(w) && ItemsOk(items)
    case Object(w, members) => Space(w) && MembersOk(members)
  }

  predicate ItemsOk(items: Items) {
    match items
    case NoItems => true
    case Item(b, v, a, rest) => Space(b) && Ok(v) && Space(a) && ItemsOk(rest)
  }

  predicate MembersOk(members: Members) {
    match members
    case NoMembers => true
    case Member(b, n, an, bv, v, a, rest) =>
      Space(b) && TextOk(n) && Space(an) && Space(bv) && Ok(v) && Space(a) && MembersOk(rest)
  }

  // ---------------------------------------------------------------- scanning inside an object

  function Walk(t: string, s: Scan): Scan {
    if t == "" then s else Walk(t[1..], Feed(s, t[0]))
  }

  /** No character of the text closes the object. */
  predicate Inside(t: string, s: Scan) {
    t == "" || (!Closes(s, t[0]) && Inside(t[1..], Feed(s, t[0])))
  }

  lemma {:induction false} WalkConcat(a: string, b: string, s: Scan)
    ensures Walk(a + b, s) == Walk(b, Walk(a, s))
    ensures Inside(a + b, s) <==> Inside(a, s) && Inside(b, Walk(a, s))
    decreases |a|
  {
    if a == "" {
      assert a + b == b;
    } else {
      assert (a + b)[1..] == a[1..] + b;
      WalkConcat(a[1..], b, Feed(s, a[0]));
    }
  }

  lemma OneCharacter(c: char, s: Scan)
    ensures Walk([c], s) == Feed(s, c)
    ensures Inside([c], s) <==> !Closes(s, c)
  {
    assert [c][1..] == "";
  }

  /** Scanning from inside an object at depth d, the text ends where it began: at the same depth,
      outside strings, and without closing the object. */
  ghost predicate Neutral(t: string) {
    forall d | 1 <= d :: Inside(t, Scan(d, false, false)) && Walk(t, Scan(d, false, false)) == Scan(d, false, false)
  }

  lemma NeutralConcat(a: string, b: string)
    requires Neutral(a) && Neutral(b)
    ensures Neutral(a + b)
  {
    forall d | 1 <= d
      ensures Inside(a + b, Scan(d, false, false)) && Walk(a + b, Scan(d, false, false)) == Scan(d, false, false)
    {
      WalkConcat(a, b, Scan(d, false, false));
    }
  }

  predicate Plain(c: char) {
    c !in "{}\"\\"
  }

  lemma {:induction false} PlainNeutral(t: string)
    requires forall i | 0 <= i < |t| :: Plain(t[i])
    ensures Neutral(t)
    decreases |t|
  {
    if t != "" {
      PlainNeutral(t[1..]);
    }
  }

  lemma SpaceNeutral(w: string)
    requires Space(w)
    ensures Neutral(w)
  {
    PlainNeutral(w);
  }

  lemma AtomNeutral(t: string)
    requires AtomOk(t)
    ensures Neutral(t)
  {
    PlainNeutral(t);
  }

  lemma {:induction false} QuietInString(h: string, s: Scan)
    requires s.inString && !s.escaped
    requires forall i | 0 <= i < |h| :: h[i] != '"' && h[i] != '\\'
    ensures Inside(h, s) && Walk(h, s) == s
    decreases |h|
  {
    if h != "" {
      QuietInString(h[1..], s);
    }
  }

  lemma EscapeInString(c: char, d: int)
    requires 1 <= d
    ensures Inside(['\\', c], Scan(d, true, false)) && Walk(['\\', c], Scan(d, true, false)) == Scan(d, true, false)
  {
    var s := Scan(d, true, false);
    assert ['\\', c] == ['\\'] + [c];
    WalkConcat(['\\'], [c], s);
  }

  lemma UnicodeInString(h: string, d: int)
    requires 1 <= d && forall i | 0 <= i < |h| :: h[i] != '"' && h[i] != '\\'
    ensures var t := "\\u" + h;
            Inside(t, Scan(d, true, false)) && Walk(t, Scan(d, true, false)) == Scan(d, true, false)
  {
    var s := Scan(d, true, false);
    assert "\\u" == ['\\', 'u'];
    EscapeInString('u', d);
    QuietInString(h, s);
    WalkConcat(['\\', 'u'], h, s);
  }

  lemma PrintPiece(p: Piece)
    ensures PrintPieces([p]) == match p
                                case Raw(c) => [c]
                                case Escape(c) => ['\\', c]
                                case Unicode(h) => "\\u" + h
  {
    assert [p][1..] == [];
  }

  /** A printed piece leaves the scanner inside the string, whatever characters it holds. */
  lemma PieceInString(p: Piece, d: int)
    requires PieceOk(p) && 1 <= d
    ensures var t := PrintPieces([p]);
            Inside(t, Scan(d, true, false)) && Walk(t, Scan(d, true, false)) == Scan(d, true, false)
  {
    hide Walk, Inside, PrintPieces;
    PrintPiece(p);
    match p
    case Raw(c) =>
      QuietInString([c], Scan(d, true, false));
    case Escape(c) =>
      EscapeInString(c, d);
    case Unicode(h) =>
      UnicodeInString(h, d);
  }

  lemma PrintFirst(pieces: seq<Piece>)
    requires pieces != []
    ensures PrintPieces([pieces[0]]) + PrintPieces(pieces[1..]) == PrintPieces(pieces)
  {
    PrintPiece(pieces[0]);
  }

  lemma {:induction false} PiecesInString(pieces: seq<Piece>, d: int)
    requires TextOk(pieces) && 1 <= d
    ensures var t := PrintPieces(pieces);
            Inside(t, Scan(d, true, false)) && Walk(t, Scan(d, true, false)) == Scan(d, true, false)
    decreases |pieces|
  {
    if pieces != [] {
      hide Walk, Inside, PieceOk;
      PieceInString(pieces[0], d);
      PiecesInString(pieces[1..], d);
      PrintFirst(pieces);
      WalkConcat(PrintPieces([pieces[0]]), PrintPieces(pieces[1..]), Scan(d, true, false));
    }
  }

  lemma TextNeutral(pieces: seq<Piece>)
    requires TextOk(pieces)
    ensures Neutral(PrintText(pieces))
  {
    forall d | 1 <= d
      ensures var t := PrintText(pieces);
              Inside(t, Scan(d, false, false)) && Walk(t, Scan(d, false, false)) == Scan(d, false, false)
    {
      PiecesInString(pieces, d);
      assert PrintText(pieces) == "\"" + (PrintPieces(pieces) + "\"");
      WalkConcat("\"", PrintPieces(pieces) + "\"", Scan(d, false, false));
      WalkConcat(PrintPieces(pieces), "\"", Scan(d, true, false));
    }
  }

  lemma BracketNeutral(space: string, inner: string)
    requires Neutral(space) && Neutral(inner)
    ensures Neutral("[" + space + inner + "]")
  {
    hide Neutral;
    PlainNeutral("[");
    PlainNeutral("]");
    NeutralConcat("[", space);
    NeutralConcat("[" + space, inner);
    NeutralConcat("[" + space + inner, "]");
  }

  lemma BraceAt(inner: string, d: int)
    requires Neutral(inner) && 1 <= d
    ensures var t := "{" + inner + "}";
            Inside(t, Scan(d, false, false)) && Walk(t, Scan(d, false, false)) == Scan(d, false, false)
  {
    hide Walk, Inside, Neutral;
    var s, deeper := Scan(d, false, false), Scan(d + 1, false, false);
    BracesAt(d);
    NeutralAt(inner, d + 1);
    assert "{" + inner + "}" == "{" + (inner + "}");
    WalkConcat("{", inner + "}", s);
    WalkConcat(inner, "}", deeper);
  }

  lemma BracesAt(d: int)
    requires 1 <= d
    ensures Inside("{", Scan(d, false, false)) && Walk("{", Scan(d, false, false)) == Scan(d + 1, false, false)
    ensures Inside("}", Scan(d + 1, false, false)) && Walk("}", Scan(d + 1, false, false)) == Scan(d, false, false)
  {
    hide Walk, Inside;
    assert "{" == ['{'] && "}" == ['}'];
    OneCharacter('{', Scan(d, false, false));
    OneCharacter('}', Scan(d + 1, false, false));
  }

  lemma NeutralAt(t: string, d: int)
    requires Neutral(t) && 1 <= d
    ensures Inside(t, Scan(d, false, false)) && Walk(t, Scan(d, false, false)) == Scan(d, false, false)
  {
    hide Walk, Inside;
  }

  lemma BraceNeutral(space: string, inner: string)
    requires Neutral(space) && Neutral(inner)
    ensures Neutral("{" + space + inner + "}")
  {
    hide Walk, Inside;
    NeutralConcat(space, inner);
    assert "{" + (space + inner) + "}" == "{" + space + inner + "}";
    forall d | 1 <= d
      ensures var t := "{" + space + inner + "}";
              Inside(t, Scan(d, false, false)) && Walk(t, Scan(d, false, false)) == Scan(d, false, false)
    {
      BraceAt(space + inner, d);
    }
  }

  /** Every JSON value is neutral to the scanner, however deep its objects and strings nest. */
  lemma {:induction false} JsonNeutral(j: Json)
    requires Ok(j)
    ensures Neutral(Print(j))
    decreases j, 0
  {
    hide Neutral;
    match j
    case Atom(t) =>
      AtomNeutral(t);
    case Text(p) =>
      TextNeutral(p);
    case Array(w, items) =>
      SpaceNeutral(w);
      ItemsNeutral(items);
      BracketNeutral(w, PrintItems(items));
    case Object(w, members) =>
      SpaceNeutral(w);
      MembersNeutral(members);
      BraceNeutral(w, PrintMembers(members));
  }

  lemma {:induction false} ItemsNeutral(items: Items)
    requires ItemsOk(items)
    ensures Neutral(PrintItems(items))
    decreases items, 0
  {
    hide Neutral;
    match items
    case NoItems => PlainNeutral("");
    case Item(b, v, a, rest) =>
      SpaceNeutral(b);
      SpaceNeutral(a);
      JsonNeutral(v);
      ItemsNeutral(rest);
      var comma := if rest == NoItems then "" else ",";
      PlainNeutral(comma);
      NeutralConcat(b, Print(v));
      NeutralConcat(b + Print(v), a);
      NeutralConcat(b + Print(v) + a, comma);
      NeutralConcat(b + Print(v) + a + comma, PrintItems(rest));
  }

  lemma {:induction false} MembersNeutral(members: Members)
    requires MembersOk(members)
    ensures Neutral(PrintMembers(members))
    decreases members, 0
  {
    hide Neutral;
    match members
    case NoMembers => PlainNeutral("");
    case Member(b, n, an, bv, v, a, rest) =>
      SpaceNeutral(b);
      TextNeutral(n);
      SpaceNeutral(an);
      SpaceNeutral(bv);
      JsonNeutral(v);
      SpaceNeutral(a);
      MembersNeutral(rest);
      var comma := if rest == NoMembers then "" else ",";
      PlainNeutral(":");
      PlainNeutral(comma);
      NeutralConcat(b, PrintText(n));
      NeutralConcat(b + PrintText(n), an);
      NeutralConcat(b + PrintText(n) + an, ":");
      NeutralConcat(b + PrintText(n) + an + ":", bv);
      NeutralConcat(b + PrintText(n) + an + ":" + bv, Print(v));
      NeutralConcat(b + PrintText(n) + an + ":" + bv + Print(v), a);
      NeutralConcat(b + PrintText(n) + an + ":" + bv + Print(v) + a, comma);
      NeutralConcat(b + PrintText(n) + an + ":" + bv + Print(v) + a + comma, PrintMembers(rest));
  }

  // ---------------------------------------------------------------- framing inverts printing

  /** While no character closes the object, the search goes on with the scanner's new memory. */
  lemma {:induction false} FindEndInside(text: string, k: nat, t: string, s: Scan)
    requires k + |t| <= |text| && text[k..k + |t|] == t && Inside(t, s)
    ensures FindEnd(text, k, s) == FindEnd(text, k + |t|, Walk(t, s))
    decreases |t|
  {
    if t != "" {
      assert text[k] == t[0];
      assert text[k + 1..k + 1 + |t[1..]|] == t[1..];
      FindEndInside(text, k + 1, t[1..], Feed(s, t[0]));
    }
  }

  /** The body of an object keeps the scanner at depth one. */
  lemma ObjectBody(j: Json)
    requires j.Object? && Ok(j)
    ensures var body := Print(j)[1..|Print(j)| - 1];
            && Print(j) == "{" + body + "}"
            && Inside("{" + body, OUTSIDE) && Walk("{" + body, OUTSIDE) == Scan(1, false, false)
  {
    var body := j.space + PrintMembers(j.members);
    SpaceNeutral(j.space);
    MembersNeutral(j.members);
    NeutralConcat(j.space, PrintMembers(j.members));
    assert Print(j) == "{" + body + "}";
    assert Print(j)[1..|Print(j)| - 1] == body;
    WalkConcat("{", body, OUTSIDE);
  }

  /** A printed object is found whole, whatever follows it. */
  lemma ObjectFound(j: Json, rest: string)
    requires j.Object? && Ok(j)
    ensures FindEnd(Print(j) + rest, 0, OUTSIDE) == Some(|Print(j)|)
  {
    hide Walk, Inside;
    ObjectBody(j);
    var body := Print(j)[1..|Print(j)| - 1];
    var text := Print(j) + rest;
    var t := "{" + body;
    assert text[0..0 + |t|] == t;
    FindEndInside(text, 0, t, OUTSIDE);
    assert text[|t|] == '}';
  }

  /** A proper prefix of a printed object has no end. */
  lemma PrefixNotFound(j: Json, n: nat)
    requires j.Object? && Ok(j) && n < |Print(j)|
    ensures FindEnd(Print(j)[..n], 0, OUTSIDE) == None
  {
    hide Walk, Inside;
    ObjectBody(j);
    var t := "{" + Print(j)[1..|Print(j)| - 1];
    var p := Print(j)[..n];
    assert t == p + t[n..];
    WalkConcat(p, t[n..], OUTSIDE);
    assert p[0..0 + |p|] == p;
    FindEndInside(p, 0, p, OUTSIDE);
  }

  predicate Gap(g: string) {
    forall i | 0 <= i < |g| :: g[i] != '{'
  }

  /** The objects printed one after another, each after a gap without opening braces. */
  function Document(gaps: seq<string>, objects: seq<Json>): string
    requires |gaps| == |objects|
  {
    if objects == [] then "" else gaps[0] + Print(objects[0]) + Document(gaps[1..], objects[1..])
  }

  function Printed(objects: seq<Json>): (r: seq<string>) {
    if objects == [] then [] else [Print(objects[0])] + Printed(objects[1..])
  }

  lemma {:induction false} GapSkipped(g: string, rest: string)
    requires Gap(g)
    ensures Frames(g + rest) == Frames(rest)
    decreases |g|
  {
    if g == "" {
      assert g + rest == rest;
    } else {
      assert (g + rest)[1..] == g[1..] + rest;
      GapSkipped(g[1..], rest);
    }
  }

  /** The first printed object of a buffer becomes its first frame. */
  lemma FirstFrame(gap: string, j: Json, after: string)
    requires Gap(gap) && j.Object? && Ok(j)
    ensures Frames(gap + (Print(j) + after)) == [Print(j)] + Frames(after)
  {
    hide FindEnd, Ok, Walk, Inside;
    var text := Print(j) + after;
    GapSkipped(gap, text);
    ObjectFound(j, after);
    assert text[..|Print(j)|] == Print(j) && text[|Print(j)|..] == after;
  }

  /** Framing inverts printing: the buffer is cut into exactly the printed objects, in order, and
      then goes on with what follows them. */
  lemma {:induction false} FramesOfDocument(gaps: seq<string>, objects: seq<Json>, tail: string)
    requires |gaps| == |objects|
    requires forall i | 0 <= i < |objects| :: Gap(gaps[i]) && objects[i].Object? && Ok(objects[i])
    ensures Frames(Document(gaps, objects) + tail) == Printed(objects) + Frames(tail)
    decreases |objects|
  {
    if objects == [] {
      assert Document(gaps, objects) + tail == tail;
    } else {
      hide Frames, Print, Ok, Gap;
      var after := Document(gaps[1..], objects[1..]) + tail;
      assert Document(gaps, objects) + tail == gaps[0] + (Print(objects[0]) + after);
      FirstFrame(gaps[0], objects[0], after);
      FramesOfDocument(gaps[1..], objects[1..], tail);
    }
  }

  /** If the buffer ends in the middle of an object, all earlier objects are still handed on, and
      nothing of the unfinished one is. */
  lemma FramesOfTruncatedDocument(gaps: seq<string>, objects: seq<Json>, gap: string, last: Json, n: nat)
    requires |gaps| == |objects|
    requires forall i | 0 <= i < |objects| :: Gap(gaps[i]) && objects[i].Object? && Ok(objects[i])
    requires Gap(gap) && last.Object? && Ok(last) && n < |Print(last)|
    ensures Frames(Document(gaps, objects) + (gap + Print(last)[..n])) == Printed(objects)
  {
    hide FindEnd, Print, Ok;
    var p := Print(last)[..n];
    FramesOfDocument(gaps, objects, gap + p);
    GapSkipped(gap, p);
    PrefixNotFound(last, n);
    ObjectBody(last);
    assert Frames(p) == [];
  }
}
