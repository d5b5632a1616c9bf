/// The display normalisation applied to the responder's reply:
/// every newline becomes an HTML line break.
module Text {

  const LineBreak: string := "<br>"

  /** What a single character of the reply becomes on display. */
  function Piece(c: char): string {
    if c == '\n' then LineBreak else [c]
  }

  /** `s.replace('\n', '<br>')`: the result holds no newline. */
  function ReplaceNewlines(s: string): (r: string)
    ensures '\n' !in r
  {
    if s == [] then []
    else
      var rest := ReplaceNewlines(s[1..]);
      assert '\n' !in Piece(s[0]);
      assert forall i :: 0 <= i < |Piece(s[0]) + rest| ==>
        (Piece(s[0]) + rest)[i] == if i < |Piece(s[0])| then Piece(s[0])[i] else rest[i - |Piece(s[0])|];
      Piece(s[0]) + rest
  }

  /** The reading back of a displayed reply: every `<br>` becomes a newline. */
  function RestoreNewlines(t: string): string
  {
    if t == [] then []
    else if |t| >= 4 && t[..4] == LineBreak then "\n" + RestoreNewlines(t[4..])
    else [t[0]] + RestoreNewlines(t[1..])
  }

  /** Each newline of the reply costs three extra characters on display. */
  lemma {:induction false} ReplaceNewlinesLength(s: string)
    ensures |ReplaceNewlines(s)| == |s| + 3 * multiset(s)['\n']
  {
    if s != [] {
      assert s == [s[0]] + s[1..];
      assert multiset(s) == multiset([s[0]]) + multiset(s[1..]);
      ReplaceNewlinesLength(s[1..]);
    }
  }

  /** The replacement changes a text exactly when the text holds a newline. */
  lemma {:induction false} ReplaceNewlinesFixedPoint(s: string)
    ensures ReplaceNewlines(s) == s <==> '\n' !in s
  {
    if s != [] {
      var rest := ReplaceNewlines(s[1..]);
      assert ReplaceNewlines(s) == Piece(s[0]) + rest;
      assert s == [s[0]] + s[1..];
      ReplaceNewlinesFixedPoint(s[1..]);
      if s[0] == '\n' {
        assert ReplaceNewlines(s)[0] == '<';
      } else {
        assert '\n' in s <==> '\n' in s[1..];
        if ReplaceNewlines(s) == s {
          assert rest == ReplaceNewlines(s)[1..];
        }
      }
    }
  }

  /** The replacement works piecewise: replacing in two halves and joining
      them is replacing in the whole. */
  lemma {:induction false} ReplaceNewlinesAppend(a: string, b: string)
    ensures ReplaceNewlines(a + b) == ReplaceNewlines(a) + ReplaceNewlines(b)
  {
    if a != [] {
      assert (a + b)[0] == a[0];
      assert (a + b)[1..] == a[1..] + b;
      ReplaceNewlinesAppend(a[1..], b);
      calc {
        ReplaceNewlines(a + b);
        Piece(a[0]) + ReplaceNewlines(a[1..] + b);
        Piece(a[0]) + (ReplaceNewlines(a[1..]) + ReplaceNewlines(b));
        (Piece(a[0]) + ReplaceNewlines(a[1..])) + ReplaceNewlines(b);
      }
    } else {
      assert a + b == b;
    }
  }

  /** No information is lost for a reply without `<`: reading the line breaks
      back as newlines gives the reply as received. */
  lemma {:induction false} RestoreReplaceNewlines(s: string)
    requires '<' !in s
    ensures RestoreNewlines(ReplaceNewlines(s)) == s
  {
    if s != [] {
      assert s == [s[0]] + s[1..];
      assert '<' !in s[1..];
      var rest := ReplaceNewlines(s[1..]);
      var t := Piece(s[0]) + rest;
      assert ReplaceNewlines(s) == t;
      RestoreReplaceNewlines(s[1..]);
      if s[0] == '\n' {
        assert t[..4] == LineBreak;
        assert t[4..] == rest;
        assert RestoreNewlines(t) == "\n" + s[1..];
      } else {
        assert t[0] == s[0] && s[0] != '<';
        assert t[1..] == rest;
        assert RestoreNewlines(t) == [s[0]] + s[1..];
      }
    }
  }
}
