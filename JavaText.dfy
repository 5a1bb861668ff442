/**
 * The parts of java.lang.String and java.lang.Character that the reader
 * relies on: startsWith with a one-character prefix, split(",") and the
 * JavaBeans setter name built from a field name.
 */
module JavaText {

  /** `s.startsWith(String.valueOf(c))`. */
  predicate StartsWith(s: string, c: char) {
    |s| > 0 && s[0] == c
  }

  /** Number of occurrences of `c` in `s`. */
  function Count(s: string, c: char): (n: nat)
    ensures n <= |s|
  {
    if s == [] then 0 else (if s[0] == c then 1 else 0) + Count(s[1..], c)
  }

  /**
   * Every piece of `s` between commas, empty ones included: the raw
   * material of split(",") before trailing empty pieces are dropped.
   */
  function Pieces(s: string): (r: seq<string>)
    ensures |r| >= 1
    ensures forall i :: 0 <= i < |r| ==> ',' !in r[i]
  {
    if s == [] then [[]]
    else
      var rest := Pieces(s[1..]);
      if s[0] == ',' then [[]] + rest
      else [[s[0]] + rest[0]] + rest[1..]
  }

  /** There is one more piece than there are commas. */
  lemma {:induction false} PiecesCount(s: string)
    ensures |Pieces(s)| == Count(s, ',') + 1
  {
    if s != [] {
      PiecesCount(s[1..]);
    }
  }

  /** The pieces put back together with a comma between each two. */
  function Join(parts: seq<string>): (s: string) {
    if |parts| == 0 then ""
    else if |parts| == 1 then parts[0]
    else parts[0] + "," + Join(parts[1..])
  }

  /** Joining the pieces of a string gives the string back. */
  lemma {:induction false} JoinPieces(s: string)
    ensures Join(Pieces(s)) == s
  {
    if s != [] {
      var rest := Pieces(s[1..]);
      JoinPieces(s[1..]);
      if s[0] == ',' {
        assert Pieces(s) == [[]] + rest;
      } else if |rest| == 1 {
        assert Join(Pieces(s)) == [s[0]] + rest[0];
      } else {
        assert Join(rest) == rest[0] + "," + Join(rest[1..]);
        assert Join(Pieces(s)) == ([s[0]] + rest[0]) + "," + Join(rest[1..]);
      }
    }
  }

  /** Prefixing a comma-free text only extends the first piece. */
  lemma {:induction false} PiecesPrefix(p: string, t: string)
    requires ',' !in p
    ensures Pieces(p + t) == [p + Pieces(t)[0]] + Pieces(t)[1..]
  {
    var pt := Pieces(t);
    if p == [] {
      assert p + t == t && p + pt[0] == pt[0];
      assert pt == [pt[0]] + pt[1..];
    } else {
      PiecesPrefix(p[1..], t);
      var rest := Pieces(p[1..] + t);
      assert rest[0] == p[1..] + pt[0] && rest[1..] == pt[1..];
      assert (p + t)[1..] == p[1..] + t;
      assert (p + t)[0] == p[0] && p[0] != ',';
      assert Pieces(p + t) == [[p[0]] + rest[0]] + rest[1..];
      assert [p[0]] + (p[1..] + pt[0]) == p + pt[0];
    }
  }

  /** Splitting a join of comma-free parts gives the parts back. */
  lemma {:induction false} PiecesJoin(parts: seq<string>)
    requires |parts| >= 1
    requires forall i :: 0 <= i < |parts| ==> ',' !in parts[i]
    ensures Pieces(Join(parts)) == parts
  {
    if |parts| == 1 {
      PiecesPrefix(parts[0], "");
      assert parts[0] + "" == parts[0];
    } else {
      var tail := Join(parts[1..]);
      PiecesJoin(parts[1..]);
      PiecesPrefix(parts[0], "," + tail);
      var ct := Pieces("," + tail);
      assert ct == [[]] + Pieces(tail) by {
        assert ("," + tail)[0] == ',';
        assert ("," + tail)[1..] == tail;
      }
      assert ct[0] == [] && ct[1..] == parts[1..];
      assert Join(parts) == parts[0] + ("," + tail);
      assert parts[0] + ct[0] == parts[0];
      assert parts == [parts[0]] + parts[1..];
    }
  }

  /** `parts` with every empty element at its end removed. */
  function DropTrailingEmpty(parts: seq<string>): (r: seq<string>)
    ensures |r| <= |parts| && r == parts[..|r|]
    ensures forall i :: |r| <= i < |parts| ==> parts[i] == ""
    ensures r == [] || r[|r| - 1] != ""
  {
    if parts == [] || parts[|parts| - 1] != "" then parts
    else DropTrailingEmpty(parts[..|parts| - 1])
  }

  /**
   * `s.split(",")`: an input without a comma is returned whole (even the
   * empty string); otherwise the pieces between commas, with the empty
   * pieces at the end dropped.
   */
  function Split(s: string): (r: seq<string>)
  {
    if ',' !in s then [s] else DropTrailingEmpty(Pieces(s))
  }

  /**
   * The tokens of split(",") hold no comma; they are the pieces of the
   * input up to the last non-empty one, and only empty pieces are dropped;
   * an input without a comma is one token.
   */
  lemma SplitSpec(s: string)
    ensures var r := Split(s);
      && (forall i :: 0 <= i < |r| ==> ',' !in r[i])
      && (',' !in s ==> r == [s])
      && |r| <= |Pieces(s)| && r == Pieces(s)[..|r|]
      && (forall i :: |r| <= i < |Pieces(s)| ==> Pieces(s)[i] == "")
      && (',' in s ==> r == [] || r[|r| - 1] != "")
  {
    var ps := Pieces(s);
    if ',' !in s {
      PiecesPrefix(s, "");
      assert s + "" == s;
      assert ps == [s];
    } else {
      var r := DropTrailingEmpty(ps);
      assert Split(s) == r;
      assert r == ps[..|r|];
    }
  }

  /**
   * split(",") undoes a join of comma-free parts when no trailing empty
   * part would be dropped.
   */
  lemma SplitJoin(parts: seq<string>)
    requires |parts| >= 1
    requires forall i :: 0 <= i < |parts| ==> ',' !in parts[i]
    requires |parts| == 1 || parts[|parts| - 1] != ""
    ensures Split(Join(parts)) == parts
  {
    PiecesJoin(parts);
    SplitSpec(Join(parts));
    if |parts| > 1 {
      assert Join(parts) == parts[0] + "," + Join(parts[1..]);
      assert Join(parts)[|parts[0]|] == ',';
    }
  }

  /** Character.toUpperCase, for the ASCII letters. */
  function ToUpper(c: char): (u: char)
    ensures 'a' <= c <= 'z' ==> 'A' <= u <= 'Z'
    ensures 'a' <= c <= 'z' ==> u as int - 'A' as int == c as int - 'a' as int
    ensures !('a' <= c <= 'z') ==> u == c
  {
    if 'a' <= c <= 'z' then (c as int - 'a' as int + 'A' as int) as char else c
  }

  /** "set" followed by the field name with its first character upper-cased. */
  function SetterName(field: string): (r: string)
    requires field != []
    ensures |r| == |field| + 3 && r[..3] == "set" && r[3] == ToUpper(field[0]) && r[4..] == field[1..]
  {
    "set" + [ToUpper(field[0])] + field[1..]
  }

  /**
   * Two field names share a setter name exactly when they agree after the
   * first character and their first characters upper-case alike
   * (so `balance` and `Balance` both need `setBalance`).
   */
  lemma SetterNameCollision(a: string, b: string)
    requires a != [] && b != []
    ensures SetterName(a) == SetterName(b) <==> ToUpper(a[0]) == ToUpper(b[0]) && a[1..] == b[1..]
  {
    if SetterName(a) == SetterName(b) {
      assert SetterName(a)[3] == ToUpper(a[0]);
      assert SetterName(a)[4..] == a[1..];
      assert SetterName(b)[4..] == b[1..];
    }
  }
}
