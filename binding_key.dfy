/** Translation of an AMQP 0-9-1 topic binding key (section 3.1.3.3 of the
    AMQP 0-9-1 specification: `*` is exactly one word, `#` is zero or more
    words) into the re2 regular expression that `rethinkmq` hands to ReQL's
    `match`. The translation is modelled character for character, including
    its quirks: literal sections are inserted unescaped, and the final
    `lstrip` removes every leading backslash and dot, not one `\.` prefix. */
module BindingKey {

  /** The fragment for a `*` section: exactly one word. */
  const OneWord: string := "\\.[a-zA-Z]+"

  /** The fragment for a `#` section: zero or more words. */
  const AnyWords: string := "(?:\\.[a-zA-Z]+)*"

  /** The characters `lstrip(r'\.')` removes: backslash and dot. */
  predicate Stripped(c: char) {
    c == '\\' || c == '.'
  }

  /** `s.split('.')` continued from a piece already begun: characters join
      the current piece, a dot closes it and begins an empty one. */
  function SplitFrom(s: string, piece: string): (parts: seq<string>)
    ensures |parts| >= 1
    decreases |s|
  {
    if s == [] then [piece]
    else if s[0] == '.' then [piece] + SplitFrom(s[1..], "")
    else SplitFrom(s[1..], piece + [s[0]])
  }

  /** Python's `s.split('.')`: the pieces between the dots, in order, empty
      pieces included; never an empty list. */
  function Split(s: string): (parts: seq<string>)
    ensures |parts| >= 1
  {
    SplitFrom(s, "")
  }

  lemma {:induction false} SplitFromDotFree(s: string, piece: string)
    requires '.' !in piece
    ensures forall i :: 0 <= i < |SplitFrom(s, piece)| ==> '.' !in SplitFrom(s, piece)[i]
    decreases |s|
  {
    if s != [] {
      if s[0] == '.' {
        SplitFromDotFree(s[1..], "");
        var rest := SplitFrom(s[1..], "");
        forall i | 0 <= i < |SplitFrom(s, piece)| ensures '.' !in SplitFrom(s, piece)[i] {
          if i > 0 {
            assert SplitFrom(s, piece)[i] == rest[i - 1];
          }
        }
      } else {
        assert '.' !in piece + [s[0]];
        SplitFromDotFree(s[1..], piece + [s[0]]);
      }
    }
  }

  /** No piece of a split contains a dot. */
  lemma SplitPiecesDotFree(s: string)
    ensures forall i :: 0 <= i < |Split(s)| ==> '.' !in Split(s)[i]
  {
    SplitFromDotFree(s, "");
  }

  /** `'.'.join(parts)`, the inverse of `Split`. */
  function JoinDots(parts: seq<string>): string
    requires |parts| >= 1
    decreases |parts|
  {
    if |parts| == 1 then parts[0] else parts[0] + "." + JoinDots(parts[1..])
  }

  lemma {:induction false} JoinSplitFrom(s: string, piece: string)
    ensures JoinDots(SplitFrom(s, piece)) == piece + s
    decreases |s|
  {
    if s == [] {
      assert piece + s == piece;
    } else if s[0] == '.' {
      var rest := SplitFrom(s[1..], "");
      JoinSplitFrom(s[1..], "");
      assert ([piece] + rest)[1..] == rest;
      assert JoinDots([piece] + rest) == piece + "." + JoinDots(rest);
      assert piece + "." + ("" + s[1..]) == piece + s;
    } else {
      JoinSplitFrom(s[1..], piece + [s[0]]);
      assert piece + [s[0]] + s[1..] == piece + s;
    }
  }

  /** Splitting and joining again gives back the key. */
  lemma JoinSplit(s: string)
    ensures JoinDots(Split(s)) == s
  {
    JoinSplitFrom(s, "");
    assert "" + s == s;
  }

  lemma {:induction false} SplitFromDot(a: string, b: string, piece: string)
    ensures SplitFrom(a + "." + b, piece) == SplitFrom(a, piece) + Split(b)
    decreases |a|
  {
    var s := a + "." + b;
    if a == [] {
      assert s[0] == '.' && s[1..] == b;
    } else {
      assert s[0] == a[0];
      assert s[1..] == a[1..] + "." + b;
      if a[0] == '.' {
        SplitFromDot(a[1..], b, "");
        assert [piece] + (SplitFrom(a[1..], "") + Split(b)) == ([piece] + SplitFrom(a[1..], "")) + Split(b);
      } else {
        SplitFromDot(a[1..], b, piece + [a[0]]);
      }
    }
  }

  /** Splitting at a dot splits the two sides independently. */
  lemma SplitDot(a: string, b: string)
    ensures Split(a + "." + b) == Split(a) + Split(b)
  {
    SplitFromDot(a, b, "");
  }

  lemma {:induction false} SplitFromDotFreeTail(a: string, piece: string)
    requires '.' !in a
    ensures SplitFrom(a, piece) == [piece + a]
    decreases |a|
  {
    if a == [] {
      assert piece + a == piece;
    } else {
      assert a[0] in a;
      assert '.' !in a[1..] by {
        forall i | 0 <= i < |a[1..]| ensures a[1..][i] != '.' {
          assert a[1..][i] == a[i + 1];
        }
      }
      SplitFromDotFreeTail(a[1..], piece + [a[0]]);
      assert piece + [a[0]] + a[1..] == piece + a;
    }
  }

  /** A key without dots is a single section. */
  lemma SplitDotFree(a: string)
    requires '.' !in a
    ensures Split(a) == [a]
  {
    SplitFromDotFreeTail(a, "");
    assert "" + a == a;
  }

  /** Joining dot-free pieces and splitting again gives back the pieces. */
  lemma {:induction false} SplitJoin(parts: seq<string>)
    requires |parts| >= 1
    requires forall i :: 0 <= i < |parts| ==> '.' !in parts[i]
    ensures Split(JoinDots(parts)) == parts
    decreases |parts|
  {
    if |parts| == 1 {
      SplitDotFree(parts[0]);
    } else {
      SplitJoin(parts[1..]);
      SplitDot(parts[0], JoinDots(parts[1..]));
      SplitDotFree(parts[0]);
      assert [parts[0]] + parts[1..] == parts;
    }
  }

  /** The regex fragment one section becomes. */
  function Fragment(section: string): string {
    if section == "*" then OneWord
    else if section == "#" then AnyWords
    else "\\." + section
  }

  /** One fragment per section, in order. */
  function Fragments(sections: seq<string>): (frags: seq<string>)
    ensures |frags| == |sections|
    decreases |sections|
  {
    if sections == [] then []
    else Fragments(sections[..|sections| - 1]) + [Fragment(sections[|sections| - 1])]
  }

  lemma {:induction false} FragmentsAppend(a: seq<string>, b: seq<string>)
    ensures Fragments(a + b) == Fragments(a) + Fragments(b)
    decreases |b|
  {
    if b == [] {
      assert a + b == a;
    } else {
      var init := b[..|b| - 1];
      FragmentsAppend(a, init);
      assert (a + b)[..|a + b| - 1] == a + init;
      assert (a + b)[|a + b| - 1] == b[|b| - 1];
    }
  }

  /** `''.join(strings)`. */
  function Concat(strings: seq<string>): string
    decreases |strings|
  {
    if strings == [] then "" else strings[0] + Concat(strings[1..])
  }

  lemma {:induction false} ConcatAppend(a: seq<string>, b: seq<string>)
    ensures Concat(a + b) == Concat(a) + Concat(b)
    decreases |a|
  {
    if a != [] {
      assert (a + b)[0] == a[0];
      assert (a + b)[1..] == a[1..] + b;
      ConcatAppend(a[1..], b);
      assert Concat(a + b) == a[0] + Concat(a[1..] + b);
      assert Concat(a) == a[0] + Concat(a[1..]);
    } else {
      assert a + b == b;
    }
  }

  /** How many characters `s.lstrip(r'\.')` removes: every one of them is a
      backslash or a dot, and the character after them is neither. */
  function StripCount(s: string): (k: nat)
    ensures k <= |s|
    ensures forall j :: 0 <= j < k ==> Stripped(s[j])
    ensures k < |s| ==> !Stripped(s[k])
    decreases |s|
  {
    if s != [] && Stripped(s[0]) then 1 + StripCount(s[1..]) else 0
  }

  /** `s.lstrip(r'\.')`: `s` without its longest prefix of backslashes and dots. */
  function LStrip(s: string): string {
    s[StripCount(s)..]
  }

  /** The longest stripped prefix is the only prefix of stripped characters
      that is followed by an unstripped one or by the end. */
  lemma {:induction false} StripCountUnique(s: string, k: nat)
    requires k <= |s|
    requires forall j :: 0 <= j < k ==> Stripped(s[j])
    requires k < |s| ==> !Stripped(s[k])
    ensures StripCount(s) == k
    decreases |s|
  {
    if k == 0 {
      if s != [] {
        assert !Stripped(s[0]);
      }
    } else {
      assert Stripped(s[0]);
      var t := s[1..];
      forall j | 0 <= j < k - 1 ensures Stripped(t[j]) {
        assert t[j] == s[j + 1];
      }
      if k - 1 < |t| {
        assert t[k - 1] == s[k];
      }
      StripCountUnique(t, k - 1);
    }
  }

  /** Stripping a string that keeps something leaves anything appended alone. */
  lemma LStripAppend(a: string, b: string)
    requires LStrip(a) != []
    ensures LStrip(a + b) == LStrip(a) + b
  {
    var k := StripCount(a);
    forall j | 0 <= j < k ensures Stripped((a + b)[j]) {
      assert (a + b)[j] == a[j];
    }
    assert (a + b)[k] == a[k];
    StripCountUnique(a + b, k);
    assert (a + b)[k..] == a[k..] + b;
  }

  /** A prefix made only of stripped characters disappears. */
  lemma LStripSkips(x: string, s: string)
    requires forall i :: 0 <= i < |x| ==> Stripped(x[i])
    ensures LStrip(x + s) == LStrip(s)
  {
    var k := |x| + StripCount(s);
    forall j | 0 <= j < k ensures Stripped((x + s)[j]) {
      if j < |x| {
        assert (x + s)[j] == x[j];
      } else {
        assert (x + s)[j] == s[j - |x|];
      }
    }
    if k < |x + s| {
      assert (x + s)[k] == s[StripCount(s)];
    }
    StripCountUnique(x + s, k);
    assert (x + s)[k..] == s[StripCount(s)..];
  }

  /** A string that starts with neither a backslash nor a dot is not stripped. */
  lemma LStripKeeps(s: string)
    requires s != [] && !Stripped(s[0])
    ensures LStrip(s) == s
  {
    assert s[0..] == s;
  }

  /** The regex body before stripping: one fragment per `.`-separated section. */
  function Unstripped(pattern: string): string {
    Concat(Fragments(Split(pattern)))
  }

  /** The regex body: the unstripped body without leading backslashes and dots. */
  function Body(pattern: string): string {
    LStrip(Unstripped(pattern))
  }

  /** A body anchored at both ends, as the returned regex is. */
  function Anchor(body: string): string {
    "^" + body + "$"
  }

  /** The regex `binding_key_to_regex(pattern)` returns. */
  function Translate(pattern: string): string {
    Anchor(Body(pattern))
  }

  /** `binding_key_to_regex`: builds the list of fragments section by section,
      joins it, strips it and anchors it. */
  method BindingKeyToRegex(pattern: string) returns (regex: string)
    ensures regex == Translate(pattern)
  {
    var parts := Split(pattern);
    var sections: seq<string> := [];
    for i := 0 to |parts|
      invariant sections == Fragments(parts[..i])
    {
      var section := parts[i];
      assert parts[..i + 1][..i] == parts[..i];
      if section == "*" {
        sections := sections + [OneWord];
      } else if section == "#" {
        sections := sections + [AnyWords];
      } else {
        sections := sections + ["\\." + section];
      }
    }
    assert parts[..|parts|] == parts;
    var body := LStrip(Concat(sections));
    regex := "^" + body + "$";
  }

  /** The regex is anchored at both ends, and what lies between the anchors
      never starts with a backslash or a dot. */
  lemma TranslateAnchored(pattern: string)
    ensures var regex := Translate(pattern);
      regex[0] == '^' && regex[|regex| - 1] == '$' &&
      var body := regex[1..|regex| - 1]; body == [] || !Stripped(body[0])
  {
    var regex := Translate(pattern);
    var u := Unstripped(pattern);
    assert regex[1..|regex| - 1] == Body(pattern) == u[StripCount(u)..];
    if Body(pattern) != [] {
      assert Body(pattern)[0] == u[StripCount(u)];
    }
  }

  /** The unstripped body of `p.q` is the unstripped bodies of `p` and `q`, in
      that order: the fragments are concatenated section by section. */
  lemma UnstrippedDot(p: string, q: string)
    ensures Unstripped(p + "." + q) == Unstripped(p) + Unstripped(q)
  {
    SplitDot(p, q);
    FragmentsAppend(Split(p), Split(q));
    ConcatAppend(Fragments(Split(p)), Fragments(Split(q)));
  }

  /** A key of one section contributes exactly that section's fragment. */
  lemma UnstrippedSection(section: string)
    requires '.' !in section
    ensures Unstripped(section) == Fragment(section)
  {
    SplitDotFree(section);
    assert [section][..0] == [];
    assert Fragments([section]) == Fragments([]) + [Fragment(section)] == [Fragment(section)];
    assert Concat([Fragment(section)]) == Fragment(section) + Concat([]);
  }

  /** The empty key becomes `^$`: its one empty section gives `\.`, which the
      strip removes. */
  lemma TranslateEmpty()
    ensures Translate("") == "^$"
  {
    UnstrippedSection("");
    assert Unstripped("") == "\\.";
    LStripSkips("\\.", "");
  }

  /** The unstripped body of a key whose first section is `first`. */
  lemma UnstrippedFirst(pattern: string)
    ensures Unstripped(pattern) == Fragment(Split(pattern)[0]) + Concat(Fragments(Split(pattern)[1..]))
  {
    FragmentsFirst(Split(pattern));
  }

  /** The first section's fragment, then the others'. */
  lemma FragmentsFirst(parts: seq<string>)
    requires |parts| >= 1
    ensures Concat(Fragments(parts)) == Fragment(parts[0]) + Concat(Fragments(parts[1..]))
  {
    assert parts == [parts[0]] + parts[1..];
    FragmentsAppend([parts[0]], parts[1..]);
    ConcatAppend(Fragments([parts[0]]), Fragments(parts[1..]));
    assert [parts[0]][..0] == [];
    assert Fragments([parts[0]]) == Fragments([]) + [Fragment(parts[0])] == [Fragment(parts[0])];
    assert Concat([Fragment(parts[0])]) == Fragment(parts[0]) + Concat([]);
  }

  /** A leading `*` loses its `\.`: the regex starts `^[a-zA-Z]+`. */
  lemma TranslateLeadingStar(pattern: string)
    requires Split(pattern)[0] == "*"
    ensures Body(pattern) == "[a-zA-Z]+" + Concat(Fragments(Split(pattern)[1..]))
  {
    var rest := Concat(Fragments(Split(pattern)[1..]));
    assert Unstripped(pattern) == OneWord + rest by {
      UnstrippedFirst(pattern);
    }
    LStripOneWord(rest);
  }

  /** Stripping removes exactly the `\.` in front of a leading `*` fragment. */
  lemma LStripOneWord(rest: string)
    ensures LStrip(OneWord + rest) == "[a-zA-Z]+" + rest
  {
    var word := "[a-zA-Z]+" + rest;
    assert OneWord + rest == "\\." + word;
    LStripSkips("\\.", word);
    assert word[0] == '[';
    LStripKeeps(word);
  }

  /** A leading `#` is not stripped at all, since its fragment starts with
      `(`: the body begins with the whole `(?:\.[a-zA-Z]+)*`, whose words each
      keep their `\.`, followed by the other sections' fragments. */
  lemma TranslateLeadingHash(pattern: string)
    requires Split(pattern)[0] == "#"
    ensures Body(pattern) == AnyWords + Concat(Fragments(Split(pattern)[1..]))
  {
    UnstrippedFirst(pattern);
    assert AnyWords[0] == '(';
    assert Unstripped(pattern)[0] == '(';
    LStripKeeps(Unstripped(pattern));
  }

  /** The key of `Topic.queue()`, `name + '.#'`, has the name's unstripped
      body followed by "zero or more words"; when the name's body survives
      stripping, the regex is the name's regex with that suffix. */
  lemma TranslateTopicQueue(name: string)
    ensures Unstripped(name + ".#") == Unstripped(name) + AnyWords
    ensures Body(name) != [] ==> Body(name + ".#") == Body(name) + AnyWords
  {
    assert name + ".#" == name + "." + "#";
    UnstrippedDot(name, "#");
    UnstrippedSection("#");
    assert Fragment("#") == AnyWords;
    if Body(name) != [] {
      LStripAppend(Unstripped(name), AnyWords);
    }
  }

  /** Every section of `pattern` is literal (neither `*` nor `#`). */
  predicate LiteralOnly(pattern: string) {
    forall i :: 0 <= i < |Split(pattern)| ==> Split(pattern)[i] != "*" && Split(pattern)[i] != "#"
  }

  /** `pattern` with each `.` written `\.`. */
  function EscapeDots(s: string): string
    decreases |s|
  {
    if s == [] then "" else (if s[0] == '.' then "\\." else [s[0]]) + EscapeDots(s[1..])
  }

  lemma {:induction false} EscapeDotsAppend(a: string, b: string)
    ensures EscapeDots(a + b) == EscapeDots(a) + EscapeDots(b)
    decreases |a|
  {
    if a != [] {
      assert (a + b)[0] == a[0];
      assert (a + b)[1..] == a[1..] + b;
      EscapeDotsAppend(a[1..], b);
      assert EscapeDots(a + b) == (if a[0] == '.' then "\\." else [a[0]]) + EscapeDots(a[1..] + b);
    } else {
      assert a + b == b;
    }
  }

  lemma {:induction false} EscapeDotFree(s: string)
    requires '.' !in s
    ensures EscapeDots(s) == s
    decreases |s|
  {
    if s != [] {
      assert '.' !in s[1..] by {
        forall i | 0 <= i < |s[1..]| ensures s[1..][i] != '.' {
          assert s[1..][i] == s[i + 1];
        }
      }
      EscapeDotFree(s[1..]);
      assert [s[0]] + s[1..] == s;
    }
  }

  /** Escaping `w.rest` for a dot-free `w`: `w`, an escaped dot, then the
      escaped rest. */
  lemma EscapeDotsJoin(w: string, rest: string)
    requires '.' !in w
    ensures EscapeDots(w + "." + rest) == w + "\\." + EscapeDots(rest)
  {
    assert w + "." + rest == w + ("." + rest);
    EscapeDotsAppend(w, "." + rest);
    EscapeDotsAppend(".", rest);
    EscapeDotFree(w);
    assert EscapeDots(".") == "\\." + EscapeDots("");
  }

  lemma {:induction false} LiteralSections(parts: seq<string>)
    requires |parts| >= 1
    requires forall i :: 0 <= i < |parts| ==> '.' !in parts[i] && parts[i] != "*" && parts[i] != "#"
    ensures Concat(Fragments(parts)) == "\\." + EscapeDots(JoinDots(parts))
    decreases |parts|
  {
    var first, tail := parts[0], parts[1..];
    FragmentsFirst(parts);
    assert Fragment(first) == "\\." + first;
    if |parts| == 1 {
      assert Concat(Fragments(tail)) == "";
      EscapeDotFree(first);
      assert JoinDots(parts) == first;
    } else {
      var rest := JoinDots(tail);
      var e := EscapeDots(rest);
      LiteralSections(tail);
      assert JoinDots(parts) == first + "." + rest;
      EscapeDotsJoin(first, rest);
      assert ("\\." + first) + ("\\." + e) == "\\." + (first + "\\." + e);
    }
  }

  /** A key made only of literal sections, not starting with a dot or
      backslash, becomes itself with every `.` escaped, anchored. The sections
      are not escaped otherwise: a regex metacharacter in a section stays one. */
  lemma TranslateLiteral(pattern: string)
    requires LiteralOnly(pattern)
    requires pattern != [] && !Stripped(pattern[0])
    ensures Translate(pattern) == "^" + EscapeDots(pattern) + "$"
  {
    var parts := Split(pattern);
    SplitPiecesDotFree(pattern);
    LiteralSections(parts);
    JoinSplit(pattern);
    var e := EscapeDots(pattern);
    assert Unstripped(pattern) == "\\." + e;
    LStripSkips("\\.", e);
    assert e == [pattern[0]] + EscapeDots(pattern[1..]);
    LStripKeeps(e);
  }

  /** Two literal words joined by a dot, `w1.w2`, become `^w1\.w2$`: the
      dot is escaped and the words are copied as they are. */
  lemma TranslateTwoWords(w1: string, w2: string)
    requires '.' !in w1 && '.' !in w2
    requires w1 != "*" && w1 != "#" && w2 != "*" && w2 != "#"
    requires w1 != [] && !Stripped(w1[0])
    ensures Translate(w1 + "." + w2) == "^" + w1 + "\\." + w2 + "$"
  {
    var pattern := w1 + "." + w2;
    assert Split(pattern) == [w1, w2] by {
      SplitDot(w1, w2);
      SplitDotFree(w1);
      SplitDotFree(w2);
    }
    assert pattern[0] == w1[0];
    TranslateLiteral(pattern);
    assert EscapeDots(pattern) == w1 + "\\." + w2 by {
      EscapeDotsAppend(w1 + ".", w2);
      EscapeDotsAppend(w1, ".");
      EscapeDotFree(w1);
      EscapeDotFree(w2);
      assert EscapeDots(".") == "\\." + EscapeDots("");
    }
  }
}
