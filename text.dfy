/** The parts of Go's `strings` and `unicode` packages that the command loop
    relies on: white space, `strings.Fields`, `strings.Join`,
    `strings.TrimSpace` and `strings.ToLower`. Strings are sequences of
    Unicode scalar values. */
module Text {

  /** Go's `unicode.IsSpace`: the Latin-1 spaces and the Unicode space
      separators (categories Zs, Zl and Zp). */
  predicate IsSpace(c: char) {
    ('\t' <= c <= '\r') || c == ' ' || c == '\U{85}' || c == '\U{A0}'
    || c == '\U{1680}' || ('\U{2000}' <= c <= '\U{200A}')
    || c == '\U{2028}' || c == '\U{2029}' || c == '\U{202F}'
    || c == '\U{205F}' || c == '\U{3000}'
  }

  predicate AllSpace(s: string) {
    forall i :: 0 <= i < |s| ==> IsSpace(s[i])
  }

  predicate NoSpace(s: string) {
    forall i :: 0 <= i < |s| ==> !IsSpace(s[i])
  }

  /** A field as `strings.Fields` produces it: a non-empty run of
      non-space characters. */
  predicate IsField(w: string) {
    w != [] && NoSpace(w)
  }

  /** Neither starts nor ends with white space. */
  predicate Trimmed(s: string) {
    s == [] || (!IsSpace(s[0]) && !IsSpace(s[|s| - 1]))
  }

  /** `strings.Fields(s)`: the maximal runs of non-space characters of `s`,
      in order. */
  function Fields(s: string): (r: seq<string>)
    ensures forall k :: 0 <= k < |r| ==> IsField(r[k])
  {
    FieldsFrom(s, "")
  }

  /** Scans `s` with `cur` the part of the current field already read. */
  function FieldsFrom(s: string, cur: string): (r: seq<string>)
    requires NoSpace(cur)
    ensures forall k :: 0 <= k < |r| ==> IsField(r[k])
    decreases |s|
  {
    if s == [] then
      if cur == [] then [] else [cur]
    else if IsSpace(s[0]) then
      (if cur == [] then [] else [cur]) + FieldsFrom(s[1..], "")
    else
      FieldsFrom(s[1..], cur + [s[0]])
  }

  /** `strings.Join(ws, sep)`. */
  function Join(ws: seq<string>, sep: string): string {
    if |ws| == 0 then ""
    else if |ws| == 1 then ws[0]
    else ws[0] + sep + Join(ws[1..], sep)
  }

  /** Drops the leading white space. */
  function TrimLeft(s: string): (r: string)
    ensures |r| <= |s| && r == s[|s| - |r|..]
    ensures AllSpace(s[..|s| - |r|])
    ensures r == [] || !IsSpace(r[0])
  {
    if s != [] && IsSpace(s[0]) then
      var r := TrimLeft(s[1..]);
      DroppedSpaceFront(s, r);
      r
    else s
  }

  /** Drops the trailing white space. */
  function TrimRight(s: string): (r: string)
    ensures |r| <= |s| && r == s[..|r|]
    ensures AllSpace(s[|r|..])
    ensures r == [] || !IsSpace(r[|r| - 1])
  {
    if s != [] && IsSpace(s[|s| - 1]) then
      var r := TrimRight(s[..|s| - 1]);
      DroppedSpaceBack(s, r);
      r
    else s
  }

  /** One more leading space dropped in front of a suffix of `s[1..]`. */
  lemma DroppedSpaceFront(s: string, r: string)
    requires s != [] && IsSpace(s[0])
    requires |r| <= |s| - 1 && r == s[1..][|s| - 1 - |r|..]
    requires AllSpace(s[1..][..|s| - 1 - |r|])
    ensures r == s[|s| - |r|..]
    ensures AllSpace(s[..|s| - |r|])
  {
    var dropped := s[..|s| - |r|];
    forall i | 0 <= i < |dropped| ensures IsSpace(dropped[i]) {
      if i > 0 { assert dropped[i] == s[1..][..|s| - 1 - |r|][i - 1]; }
    }
  }

  /** One more trailing space dropped behind a prefix of `s[..|s| - 1]`. */
  lemma DroppedSpaceBack(s: string, r: string)
    requires s != [] && IsSpace(s[|s| - 1])
    requires |r| <= |s| - 1 && r == s[..|s| - 1][..|r|]
    requires AllSpace(s[..|s| - 1][|r|..])
    ensures r == s[..|r|]
    ensures AllSpace(s[|r|..])
  {
    var dropped := s[|r|..];
    forall i | 0 <= i < |dropped| ensures IsSpace(dropped[i]) {
      if i < |dropped| - 1 { assert dropped[i] == s[..|s| - 1][|r|..][i]; }
    }
  }

  /** `strings.TrimSpace(s)`. */
  function TrimSpace(s: string): (r: string)
    ensures Trimmed(r)
    ensures |r| <= |s|
  {
    TrimRight(TrimLeft(s))
  }

  /** `unicode.ToLower` on the ASCII letters; every other character is
      kept. */
  function LowerChar(c: char): (r: char)
    ensures !('A' <= r <= 'Z')
    ensures IsSpace(r) <==> IsSpace(c)
    ensures r != c ==> 'a' <= r <= 'z' && r as int - c as int == 32
  {
    if 'A' <= c <= 'Z' then (c as int + 32) as char else c
  }

  /** `strings.ToLower`, restricted to ASCII letters like LowerChar. */
  function ToLower(s: string): (r: string)
    ensures |r| == |s|
    ensures forall i :: 0 <= i < |s| ==> !('A' <= r[i] <= 'Z')
    ensures forall i :: 0 <= i < |s| ==> (IsSpace(r[i]) <==> IsSpace(s[i]))
  {
    seq(|s|, i requires 0 <= i < |s| => LowerChar(s[i]))
  }

  // ---------------------------------------------------------------------
  // Fields and Join

  /** A line has no fields exactly when it is all white space: these are
      the lines the command loop skips. */
  lemma {:induction false} FieldsEmptyIff(s: string)
    ensures Fields(s) == [] <==> AllSpace(s)
  {
    FieldsFromEmptyIff(s, "");
  }

  lemma {:induction false} FieldsFromEmptyIff(s: string, cur: string)
    requires NoSpace(cur)
    ensures FieldsFrom(s, cur) == [] <==> cur == [] && AllSpace(s)
    decreases |s|
  {
    if s == [] {
    } else if IsSpace(s[0]) {
      FieldsFromEmptyIff(s[1..], "");
      assert AllSpace(s) <==> AllSpace(s[1..]) by {
        if AllSpace(s[1..]) {
          forall i | 0 <= i < |s| ensures IsSpace(s[i]) {
            if i > 0 { assert s[i] == s[1..][i - 1]; }
          }
        }
      }
    } else {
      FieldsFromEmptyIff(s[1..], cur + [s[0]]);
      assert (cur + [s[0]]) != [];
    }
  }

  /** Reading a run of non-space characters only extends the current
      field. */
  lemma {:induction false} FieldsFromWord(w: string, rest: string, cur: string)
    requires NoSpace(cur) && NoSpace(w)
    ensures NoSpace(cur + w)
    ensures FieldsFrom(w + rest, cur) == FieldsFrom(rest, cur + w)
    decreases |w|
  {
    if w == [] {
      assert w + rest == rest;
      assert cur + w == cur;
    } else {
      assert (w + rest)[0] == w[0];
      assert (w + rest)[1..] == w[1..] + rest;
      assert NoSpace(w[1..]) by {
        forall i | 0 <= i < |w[1..]| ensures !IsSpace(w[1..][i]) {
          assert w[1..][i] == w[i + 1];
        }
      }
      FieldsFromWord(w[1..], rest, cur + [w[0]]);
      assert cur + [w[0]] + w[1..] == cur + w;
    }
  }

  /** Round trip: splitting a single-space join of fields gives the fields
      back. In particular `strings.Fields` of an `add` title yields exactly
      the words typed after `add`. */
  lemma {:induction false} FieldsOfJoin(ws: seq<string>)
    requires forall k :: 0 <= k < |ws| ==> IsField(ws[k])
    ensures Fields(Join(ws, " ")) == ws
    decreases |ws|
  {
    if |ws| == 0 {
    } else if |ws| == 1 {
      FieldsFromWord(ws[0], "", "");
      assert ws[0] + "" == ws[0];
      assert "" + ws[0] == ws[0];
    } else {
      var tail := Join(ws[1..], " ");
      assert Join(ws, " ") == ws[0] + (" " + tail);
      FieldsFromWord(ws[0], " " + tail, "");
      assert "" + ws[0] == ws[0];
      assert (" " + tail)[1..] == tail;
      FieldsOfJoin(ws[1..]);
      assert ws == [ws[0]] + ws[1..];
    }
  }

  lemma JoinPrepend(w: string, ws: seq<string>)
    requires |ws| >= 1
    ensures Join([w] + ws, " ") == w + " " + Join(ws, " ")
  {
    assert ([w] + ws)[1..] == ws;
  }

  /** Joining one or more fields with single spaces gives a non-empty
      string without leading or trailing white space. */
  lemma {:induction false} JoinFieldsTrimmed(ws: seq<string>)
    requires |ws| >= 1
    requires forall k :: 0 <= k < |ws| ==> IsField(ws[k])
    ensures Join(ws, " ") != []
    ensures !IsSpace(Join(ws, " ")[0])
    ensures !IsSpace(Join(ws, " ")[|Join(ws, " ")| - 1])
    decreases |ws|
  {
    if |ws| > 1 {
      JoinFieldsTrimmed(ws[1..]);
      var tail := Join(ws[1..], " ");
      assert Join(ws, " ") == ws[0] + " " + tail;
      assert Join(ws, " ")[0] == ws[0][0];
      assert Join(ws, " ")[|Join(ws, " ")| - 1] == tail[|tail| - 1];
    } else {
      assert ws[0][0] == Join(ws, " ")[0];
    }
  }

  /** The words `ws` with `seps[k]` between `ws[k]` and `ws[k + 1]`: any
      line with fields `ws` is `pre + Interleave(ws, seps) + post` for some
      white space `pre`, `post` and non-empty white space separators. */
  function Interleave(ws: seq<string>, seps: seq<string>): string
    requires ws == [] || |seps| == |ws| - 1
    decreases |ws|
  {
    if |ws| == 0 then ""
    else if |ws| == 1 then ws[0]
    else ws[0] + seps[0] + Interleave(ws[1..], seps[1..])
  }

  /** Leading white space produces no field. */
  lemma {:induction false} FieldsFromSpaces(sp: string, rest: string)
    requires AllSpace(sp)
    ensures FieldsFrom(sp + rest, "") == FieldsFrom(rest, "")
    decreases |sp|
  {
    if sp != [] {
      assert (sp + rest)[0] == sp[0];
      assert (sp + rest)[1..] == sp[1..] + rest;
      assert AllSpace(sp[1..]) by {
        forall i | 0 <= i < |sp[1..]| ensures IsSpace(sp[1..][i]) {
          assert sp[1..][i] == sp[i + 1];
        }
      }
      FieldsFromSpaces(sp[1..], rest);
    } else {
      assert sp + rest == rest;
    }
  }

  /** A field followed by white space is emitted whole, and the scan
      starts afresh after the white space. */
  lemma FieldsFromFieldThenSpaces(w: string, sp: string, rest: string)
    requires IsField(w) && AllSpace(sp) && sp != []
    ensures FieldsFrom(w + (sp + rest), "") == [w] + FieldsFrom(rest, "")
  {
    FieldsFromWord(w, sp + rest, "");
    assert "" + w == w;
    assert (sp + rest)[0] == sp[0];
    assert (sp + rest)[1..] == sp[1..] + rest;
    assert AllSpace(sp[1..]) by {
      forall i | 0 <= i < |sp[1..]| ensures IsSpace(sp[1..][i]) {
        assert sp[1..][i] == sp[i + 1];
      }
    }
    FieldsFromSpaces(sp[1..], rest);
  }

  lemma {:induction false} FieldsOfInterleave(ws: seq<string>, seps: seq<string>, post: string)
    requires |ws| >= 1 && |seps| == |ws| - 1
    requires forall k :: 0 <= k < |ws| ==> IsField(ws[k])
    requires forall k :: 0 <= k < |seps| ==> seps[k] != [] && AllSpace(seps[k])
    requires AllSpace(post)
    ensures FieldsFrom(Interleave(ws, seps) + post, "") == ws
    decreases |ws|
  {
    if |ws| == 1 {
      assert Interleave(ws, seps) + post == ws[0] + (post + "");
      if post == [] {
        FieldsFromWord(ws[0], "", "");
        assert "" + ws[0] == ws[0];
      } else {
        FieldsFromFieldThenSpaces(ws[0], post, "");
      }
    } else {
      var tail := Interleave(ws[1..], seps[1..]);
      assert Interleave(ws, seps) + post == ws[0] + (seps[0] + (tail + post));
      FieldsFromFieldThenSpaces(ws[0], seps[0], tail + post);
      FieldsOfInterleave(ws[1..], seps[1..], post);
      assert ws == [ws[0]] + ws[1..];
    }
  }

  /** `strings.Fields` splits around runs of white space: for any fields
      `ws`, white space `pre` and `post` around them and non-empty white
      space between them, the fields of the line are exactly `ws`. */
  lemma FieldsOfSpaced(pre: string, ws: seq<string>, seps: seq<string>, post: string)
    requires ws == [] || |seps| == |ws| - 1
    requires forall k :: 0 <= k < |ws| ==> IsField(ws[k])
    requires forall k :: 0 <= k < |seps| ==> seps[k] != [] && AllSpace(seps[k])
    requires AllSpace(pre) && AllSpace(post)
    ensures Fields(pre + Interleave(ws, seps) + post) == ws
  {
    var body := Interleave(ws, seps);
    assert pre + body + post == pre + (body + post);
    FieldsFromSpaces(pre, body + post);
    if ws == [] {
      assert body + post == post + "";
      FieldsFromSpaces(post, "");
    } else {
      FieldsOfInterleave(ws, seps, post);
    }
  }

  // ---------------------------------------------------------------------
  // TrimSpace and ToLower

  lemma {:induction false} TrimLeftPadded(pre: string, t: string)
    requires AllSpace(pre)
    requires t == [] || !IsSpace(t[0])
    ensures TrimLeft(pre + t) == t
    decreases |pre|
  {
    if pre == [] {
      assert pre + t == t;
    } else {
      assert (pre + t)[0] == pre[0];
      assert (pre + t)[1..] == pre[1..] + t;
      TrimLeftPadded(pre[1..], t);
    }
  }

  lemma {:induction false} TrimRightPadded(t: string, post: string)
    requires AllSpace(post)
    requires t == [] || !IsSpace(t[|t| - 1])
    ensures TrimRight(t + post) == t
    decreases |post|
  {
    if post == [] {
      assert t + post == t;
    } else {
      var n := |t + post|;
      assert (t + post)[n - 1] == post[|post| - 1];
      assert (t + post)[..n - 1] == t + post[..|post| - 1];
      TrimRightPadded(t, post[..|post| - 1]);
    }
  }

  /** TrimSpace removes exactly the surrounding white space: for any
      trimmed `core`, padding it with white space on both sides and trimming
      gives `core` back. */
  lemma TrimSpacePadded(pre: string, core: string, post: string)
    requires AllSpace(pre) && AllSpace(post) && Trimmed(core)
    ensures TrimSpace(pre + core + post) == core
  {
    if core == [] {
      assert pre + core + post == (pre + post) + core;
      assert AllSpace(pre + post) by {
        forall i | 0 <= i < |pre + post| ensures IsSpace((pre + post)[i]) {
          if i < |pre| { assert (pre + post)[i] == pre[i]; }
          else { assert (pre + post)[i] == post[i - |pre|]; }
        }
      }
      TrimLeftPadded(pre + post, core);
    } else {
      assert pre + core + post == pre + (core + post);
      assert (core + post)[0] == core[0];
      TrimLeftPadded(pre, core + post);
      TrimRightPadded(core, post);
    }
  }

  /** Lower-casing works character by character, so it distributes over
      concatenation. */
  lemma ToLowerConcat(a: string, b: string)
    ensures ToLower(a + b) == ToLower(a) + ToLower(b)
  {
  }

  lemma ToLowerSpaces(s: string)
    requires AllSpace(s)
    ensures ToLower(s) == s
  {
  }

  lemma ToLowerTrimmed(s: string)
    requires Trimmed(s)
    ensures Trimmed(ToLower(s))
  {
  }
}
