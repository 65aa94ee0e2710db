/** The Rust type name derived from an AUTOSAR type name (`derive_type_name` in
    src/generator.rs): a leading "AR:" is dropped, the name's '-'-separated words are
    capitalised and joined without the dashes, and "Ar" is put in front. */
module TypeName {

  /** `char::to_ascii_uppercase`: only 'a'..'z' change. */
  function AsciiUpper(c: char): char
  {
    if 'a' <= c <= 'z' then (c as int - 32) as char else c
  }

  /** `char::to_ascii_lowercase`: only 'A'..'Z' change. */
  function AsciiLower(c: char): char
  {
    if 'A' <= c <= 'Z' then (c as int + 32) as char else c
  }

  /** The word in lower case. */
  function Lowered(w: string): string
  {
    if w == [] then [] else [AsciiLower(w[0])] + Lowered(w[1..])
  }

  /** A word with its first letter in upper case and the rest in lower case. */
  function Capitalized(w: string): string
  {
    if w == [] then [] else [AsciiUpper(w[0])] + Lowered(w[1..])
  }

  /** The name without its "AR:" namespace prefix. */
  function StripPrefix(name: string): (r: string)
    ensures |name| >= 3 && name[..3] == "AR:" ==> name == "AR:" + r
    ensures !(|name| >= 3 && name[..3] == "AR:") ==> r == name
  {
    if |name| >= 3 && name[..3] == "AR:" then name[3..] else name
  }

  /** What the loop of `derive_type_name` appends for `s` when it starts with the given
      value of its `uppercase` flag: a dash only raises the flag, any other character
      is emitted in upper case when the flag is up (which lowers it) and in lower case
      otherwise. */
  function CamelFrom(s: string, uppercase: bool): string
  {
    if s == [] then []
    else if s[0] == '-' then CamelFrom(s[1..], true)
      else if uppercase then [AsciiUpper(s[0])] + CamelFrom(s[1..], false)
      else [AsciiLower(s[0])] + CamelFrom(s[1..], false)
  }

  /** Nothing the loop emits is a dash, and every other character is emitted. */
  lemma {:induction false} CamelLength(s: string, uppercase: bool)
    ensures |CamelFrom(s, uppercase)| == |s| - multiset(s)['-']
    ensures '-' !in CamelFrom(s, uppercase)
  {
    if s != [] {
      assert s == [s[0]] + s[1..];
      CamelLength(s[1..], true);
      CamelLength(s[1..], false);
    }
  }

  /** One step of the loop: what the first character of `s` contributes. */
  lemma CamelStep(s: string, uppercase: bool)
    requires s != []
    ensures s[0] == '-' ==> CamelFrom(s, uppercase) == CamelFrom(s[1..], true)
    ensures s[0] != '-' && uppercase ==> CamelFrom(s, uppercase) == [AsciiUpper(s[0])] + CamelFrom(s[1..], false)
    ensures s[0] != '-' && !uppercase ==> CamelFrom(s, uppercase) == [AsciiLower(s[0])] + CamelFrom(s[1..], false)
  {
  }

  /** `derive_type_name` as a value. */
  function DerivedName(autosarName: string): string
  {
    "Ar" + CamelFrom(StripPrefix(autosarName), true)
  }

  /** `derive_type_name`. */
  method DeriveTypeName(autosarName: string) returns (r: string)
    ensures r == DerivedName(autosarName)
  {
    var chars := ['A', 'r'];
    var uppercase := true;
    var stripped := if |autosarName| >= 3 && autosarName[..3] == "AR:" then autosarName[3..] else autosarName;
    assert stripped == StripPrefix(autosarName);
    for i := 0 to |stripped|
      invariant chars + CamelFrom(stripped[i..], uppercase) == DerivedName(autosarName)
    {
      ghost var rest := CamelFrom(stripped[i + 1..], false);
      assert stripped[i..][1..] == stripped[i + 1..];
      CamelStep(stripped[i..], uppercase);
      var c := stripped[i];
      if c == '-' {
        uppercase := true;
      } else {
        if uppercase {
          ConcatAssoc(chars, [AsciiUpper(c)], rest);
          chars := chars + [AsciiUpper(c)];
          uppercase := false;
        } else {
          ConcatAssoc(chars, [AsciiLower(c)], rest);
          chars := chars + [AsciiLower(c)];
        }
      }
    }
    r := chars;
  }

  // ---------------------------------------------------------------- the words of a name

  /** The pieces of `s` between its dashes (`split('-')`): one more piece than dashes,
      empty pieces included. */
  function Words(s: string): (r: seq<string>)
    ensures |r| >= 1
  {
    if s == [] then [[]]
    else if s[0] == '-' then [[]] + Words(s[1..])
    else
      var ws := Words(s[1..]);
      [[s[0]] + ws[0]] + ws[1..]
  }

  /** The inverse of `Words`: the pieces joined with dashes. */
  function JoinDashed(ws: seq<string>): string
  {
    if ws == [] then [] else if |ws| == 1 then ws[0] else ws[0] + "-" + JoinDashed(ws[1..])
  }

  /** Splitting at the dashes loses nothing, and no piece holds a dash. */
  lemma {:induction false} WordsRoundTrip(s: string)
    ensures JoinDashed(Words(s)) == s
    ensures forall i :: 0 <= i < |Words(s)| ==> '-' !in Words(s)[i]
  {
    if s == [] {
    } else if s[0] == '-' {
      WordsRoundTrip(s[1..]);
      assert s == "-" + s[1..];
    } else {
      WordsRoundTrip(s[1..]);
      var ws := Words(s[1..]);
      if |ws| == 1 {
        assert s == [s[0]] + s[1..];
      } else {
        assert ws == [ws[0]] + ws[1..];
        assert JoinDashed(ws) == ws[0] + "-" + JoinDashed(ws[1..]);
        assert s == [s[0]] + s[1..];
      }
      forall i | 0 <= i < |Words(s)| ensures '-' !in Words(s)[i] {
        if i > 0 {
          assert Words(s)[i] == ws[i];
        }
      }
    }
  }

  /** The capitalised pieces, concatenated. */
  function CapitalizedWords(ws: seq<string>): string
  {
    if ws == [] then [] else Capitalized(ws[0]) + CapitalizedWords(ws[1..])
  }

  /** The loop's output is the concatenation of the capitalised words; started with the
      flag down, the first word stays in lower case. */
  lemma {:induction false} CamelIsCapitalizedWords(s: string)
    ensures CamelFrom(s, true) == CapitalizedWords(Words(s))
    ensures CamelFrom(s, false) == Lowered(Words(s)[0]) + CapitalizedWords(Words(s)[1..])
  {
    if s == [] {
    } else if s[0] == '-' {
      CamelIsCapitalizedWords(s[1..]);
      CamelStep(s, true);
      CamelStep(s, false);
      assert Words(s)[1..] == Words(s[1..]);
    } else {
      CamelIsCapitalizedWords(s[1..]);
      CamelWordsLetter(s);
    }
  }

  /** The inductive step of `CamelIsCapitalizedWords` for a name that starts with a
      letter: the letter joins the first word. */
  lemma CamelWordsLetter(s: string)
    requires s != [] && s[0] != '-'
    requires CamelFrom(s[1..], false) == Lowered(Words(s[1..])[0]) + CapitalizedWords(Words(s[1..])[1..])
    ensures CamelFrom(s, true) == CapitalizedWords(Words(s))
    ensures CamelFrom(s, false) == Lowered(Words(s)[0]) + CapitalizedWords(Words(s)[1..])
  {
    var ws := Words(s[1..]);
    var w := [s[0]] + ws[0];
    assert Words(s) == [w] + ws[1..];
    assert CamelFrom(s, true) == CapitalizedWords(Words(s)) by {
      CamelStep(s, true);
      CapitalizedCons(s[0], ws);
      ConcatAssoc([AsciiUpper(s[0])], Lowered(ws[0]), CapitalizedWords(ws[1..]));
    }
    assert CamelFrom(s, false) == Lowered(Words(s)[0]) + CapitalizedWords(Words(s)[1..]) by {
      CamelStep(s, false);
      LoweredCons(s[0], ws[0]);
      ConcatAssoc([AsciiLower(s[0])], Lowered(ws[0]), CapitalizedWords(ws[1..]));
      assert Words(s)[0] == w;
      assert Words(s)[1..] == ws[1..];
    }
  }

  /** A letter put in front of the first word. */
  lemma CapitalizedCons(c: char, ws: seq<string>)
    requires |ws| >= 1
    ensures CapitalizedWords([[c] + ws[0]] + ws[1..]) == [AsciiUpper(c)] + Lowered(ws[0]) + CapitalizedWords(ws[1..])
  {
    var w := [c] + ws[0];
    var vs := [w] + ws[1..];
    assert CapitalizedWords(vs) == Capitalized(w) + CapitalizedWords(ws[1..]) by {
      assert vs[0] == w;
      assert vs[1..] == ws[1..];
    }
    assert Capitalized(w) == [AsciiUpper(c)] + Lowered(ws[0]) by {
      assert w[0] == c;
      assert w[1..] == ws[0];
    }
  }

  lemma ConcatAssoc(a: string, b: string, c: string)
    ensures a + (b + c) == a + b + c
  {
  }

  lemma LoweredCons(c: char, w: string)
    ensures Lowered([c] + w) == [AsciiLower(c)] + Lowered(w)
  {
    assert ([c] + w)[1..] == w;
  }

  /** The derived name is "Ar" followed by the capitalised '-'-separated words of the
      name without its "AR:" prefix; it holds no dash and is two characters longer than
      that name without its dashes. */
  lemma DerivedNameFacts(autosarName: string)
    ensures DerivedName(autosarName) == "Ar" + CapitalizedWords(Words(StripPrefix(autosarName)))
    ensures DerivedName(autosarName)[..2] == "Ar"
    ensures '-' !in DerivedName(autosarName)[2..]
    ensures |DerivedName(autosarName)| == 2 + |StripPrefix(autosarName)| - multiset(StripPrefix(autosarName))['-']
  {
    CamelIsCapitalizedWords(StripPrefix(autosarName));
    CamelLength(StripPrefix(autosarName), true);
    assert DerivedName(autosarName)[2..] == CamelFrom(StripPrefix(autosarName), true);
  }

  /** The prefix "AR:" does not reach the type name: a name and its prefixed form
      derive the same type name. */
  lemma PrefixIgnored(name: string)
    ensures DerivedName("AR:" + name) == DerivedName(name) || (|name| >= 3 && name[..3] == "AR:")
  {
    assert ("AR:" + name)[..3] == "AR:";
    assert ("AR:" + name)[3..] == name;
  }
}
