/** The bearer-token extraction of `authenticateToken`:
    `authHeader && authHeader.split(' ')[1]`. */
module Headers {
  import opened Wrappers

  /** JavaScript's `s.split(' ')`: the fields between single spaces.
      There is always at least one field, and no field holds a space. */
  function Split(s: string): (fields: seq<string>)
    ensures |fields| >= 1
    ensures forall i :: 0 <= i < |fields| ==> ' ' !in fields[i]
  {
    if s == [] then [""]
    else
      var rest := Split(s[1..]);
      if s[0] == ' ' then [""] + rest
      else [[s[0]] + rest[0]] + rest[1..]
  }

  /** The inverse of `Split`: `fields.join(' ')`. */
  function Join(fields: seq<string>): string
    requires |fields| >= 1
  {
    if |fields| == 1 then fields[0] else fields[0] + " " + Join(fields[1..])
  }

  /** Splitting loses nothing: joining the fields gives back the header. */
  lemma {:induction false} JoinSplit(s: string)
    ensures Join(Split(s)) == s
  {
    if s != [] {
      var rest := Split(s[1..]);
      JoinSplit(s[1..]);
      assert s == [s[0]] + s[1..];
      if s[0] == ' ' {
        assert ([""] + rest)[1..] == rest;
      } else {
        var fields := [[s[0]] + rest[0]] + rest[1..];
        assert fields[1..] == rest[1..];
        if |rest| > 1 {
          assert Join(rest) == rest[0] + " " + Join(rest[1..]);
        }
      }
    }
  }

  /** A field without spaces followed by a space splits off as the first field. */
  lemma {:induction false} SplitField(h: string, x: string)
    requires ' ' !in h
    ensures Split(h + " " + x) == [h] + Split(x)
  {
    if h == [] {
      assert (h + " " + x)[1..] == x;
    } else {
      assert (h + " " + x)[1..] == h[1..] + " " + x;
      SplitField(h[1..], x);
      assert [h[0]] + h[1..] == h;
    }
  }

  lemma {:induction false} SplitNoSpace(t: string)
    requires ' ' !in t
    ensures Split(t) == [t]
  {
    if t != [] {
      SplitNoSpace(t[1..]);
      assert [t[0]] + t[1..] == t;
    }
  }

  /** The token `authenticateToken` reads from the `Authorization` header:
      `None` when the header is missing or its second space-separated field
      is absent or empty (all falsy in JavaScript). The scheme word in front
      is not examined. */
  function BearerToken(authorization: Option<string>): Option<string> {
    match authorization
    case None => None
    case Some(header) =>
      var fields := Split(header);
      if |fields| >= 2 && fields[1] != "" then Some(fields[1]) else None
  }

  /** `header` is `h + " " + t + rest` where `h` and `t` hold no space and
      `rest` is empty or starts a further field. */
  ghost predicate Decomposes(header: string, h: string, t: string, rest: string) {
    && ' ' !in h && ' ' !in t
    && (rest == "" || rest[0] == ' ')
    && header == h + " " + t + rest
  }

  /** `t` is the second space-separated field of `header`. */
  ghost predicate SecondField(header: string, t: string) {
    exists h, rest :: Decomposes(header, h, t, rest)
  }

  /** The token is exactly the non-empty second field of the header. */
  lemma BearerTokenIsSecondField(header: string, t: string)
    ensures BearerToken(Some(header)) == Some(t) <==> t != "" && SecondField(header, t)
  {
    var fields := Split(header);
    if BearerToken(Some(header)) == Some(t) {
      JoinSplit(header);
      var rest := if |fields| == 2 then "" else " " + Join(fields[2..]);
      assert Join(fields) == fields[0] + " " + Join(fields[1..]);
      assert Join(fields[1..]) == fields[1] + rest by {
        assert fields[1..][0] == fields[1];
        if |fields| > 2 {
          assert fields[1..][1..] == fields[2..];
        }
      }
      assert header == fields[0] + " " + t + rest;
      assert Decomposes(header, fields[0], t, rest);
    }
    if t != "" && SecondField(header, t) {
      var h, rest :| Decomposes(header, h, t, rest);
      assert header == h + " " + (t + rest);
      SplitField(h, t + rest);
      if rest == "" {
        assert t + rest == t;
        SplitNoSpace(t);
      } else {
        assert t + rest == t + " " + rest[1..];
        SplitField(t, rest[1..]);
      }
    }
  }

  /** The header a client builds from a token, `Bearer <token>`, yields that
      token whenever the token is non-empty and holds no space. */
  lemma BearerHeader(t: string)
    requires t != "" && ' ' !in t
    ensures BearerToken(Some("Bearer " + t)) == Some(t)
  {
    assert ' ' !in "Bearer";
    assert "Bearer " + t == "Bearer" + " " + t;
    SplitField("Bearer", t);
    SplitNoSpace(t);
  }
}
