/**
 * The `currentUserOrAdminOnly` route middleware: split `route.fullPath` on '/', take
 * the last piece, and send a non-admin whose id is not loosely equal to that piece
 * back to '/'. Its only effect is the redirect; the store is only read.
 */
module RouteGuard {
  import opened Wrappers
  import opened JsValues
  import opened StoreGetters

  /** The position of the first `c` in `s`. */
  function FirstIndex(s: string, c: char): (k: nat)
    requires c in s
    ensures k < |s| && s[k] == c && c !in s[..k]
  {
    if s[0] == c then 0
    else
      var k := 1 + FirstIndex(s[1..], c);
      assert s[..k] == [s[0]] + s[1..][..k - 1];
      k
  }

  /** `s.split(sep)` for a one-character separator: the pieces between separators, empty ones kept. */
  function SplitOn(s: string, sep: char): (pieces: seq<string>)
    ensures |pieces| >= 1
    ensures sep !in s ==> pieces == [s]
    ensures sep in s ==> |pieces| >= 2
    decreases |s|
  {
    if sep !in s then [s]
    else
      var k := FirstIndex(s, sep);
      [s[..k]] + SplitOn(s[k + 1..], sep)
  }

  /** `pieces.join(sep)`. */
  function JoinWith(pieces: seq<string>, sep: char): string
    requires |pieces| >= 1
  {
    if |pieces| == 1 then pieces[0] else pieces[0] + [sep] + JoinWith(pieces[1..], sep)
  }

  /** `splitPath[splitPath.length-1]`. */
  function LastSegment(path: string): (seg: string)
    ensures '/' !in seg
    ensures '/' !in path ==> seg == path
  {
    PiecesHaveNoSeparator(path, '/');
    var pieces := SplitOn(path, '/');
    pieces[|pieces| - 1]
  }

  /** What the middleware does to the navigation. */
  datatype Outcome = Continue | Redirect(to: string) | TypeError

  /** The middleware, for a navigation to `fullPath` with the given store state. */
  function Guard(fullPath: string, state: AuthState): (o: Outcome)
    ensures o == TypeError <==> !Readable(state.user)
    ensures o.Redirect? ==> o.to == "/"
    ensures o.Redirect? <==> (Readable(state.user)
                             && !Truthy(Member(state.user, "admin").value)
                             && !LooselyEqual(Str(LastSegment(fullPath)), Member(state.user, "id").value))
  {
    var idParam := Str(LastSegment(fullPath));
    match Member(state.user, "id")
    case None => TypeError
    case Some(currentUserId) =>
      var isAdmin := Member(state.user, "admin").value;
      if !Truthy(isAdmin) && !LooselyEqual(idParam, currentUserId) then Redirect("/") else Continue
  }

  // ---------------------------------------------------------------------------
  // Lemmas about splitting

  /** No piece contains the separator. */
  lemma {:induction false} PiecesHaveNoSeparator(s: string, sep: char)
    ensures forall i :: 0 <= i < |SplitOn(s, sep)| ==> sep !in SplitOn(s, sep)[i]
    decreases |s|
  {
    if sep in s {
      var k := FirstIndex(s, sep);
      PiecesHaveNoSeparator(s[k + 1..], sep);
    }
  }

  /** Joining the pieces back with the separator gives the original string. */
  lemma {:induction false} JoinSplit(s: string, sep: char)
    ensures JoinWith(SplitOn(s, sep), sep) == s
    decreases |s|
  {
    if sep in s {
      var k := FirstIndex(s, sep);
      JoinSplit(s[k + 1..], sep);
      assert s == s[..k] + [sep] + s[k + 1..];
    }
  }

  /** Any position holding `c` with no `c` before it is the first index. */
  lemma {:induction false} FirstIndexUnique(s: string, c: char, k: nat)
    requires k < |s| && s[k] == c && c !in s[..k]
    ensures FirstIndex(s, c) == k
  {
    var j := FirstIndex(s, c);
    assert forall x :: j < x <= |s| ==> s[..x][j] == c;
    assert forall x :: k < x <= |s| ==> s[..x][k] == c;
  }

  /** Splitting `p + [sep] + q` splits `p` and then `q`. */
  lemma {:induction false} SplitAppend(p: string, sep: char, q: string)
    requires sep !in p
    ensures SplitOn(p + [sep] + q, sep) == [p] + SplitOn(q, sep)
  {
    var s := p + [sep] + q;
    assert s[..|p|] == p && s[|p|] == sep;
    FirstIndexUnique(s, sep, |p|);
    assert s[|p| + 1..] == q;
  }

  /** The last piece is whatever follows the last '/', or the whole path when it has none. */
  lemma {:induction false} LastSegmentAfterLastSlash(prefix: string, seg: string)
    requires '/' !in seg
    ensures LastSegment(prefix + "/" + seg) == seg
    decreases |prefix|
  {
    if '/' in prefix {
      var k := FirstIndex(prefix, '/');
      var head := prefix[..k];
      var rest := prefix[k + 1..];
      assert prefix + "/" + seg == head + ['/'] + (rest + "/" + seg) by {
        assert prefix == head + ['/'] + rest;
      }
      LastSegmentSkipsPiece(head, rest + "/" + seg);
      LastSegmentAfterLastSlash(rest, seg);
    } else {
      SplitAppend(prefix, '/', seg);
      assert SplitOn(seg, '/') == [seg];
    }
  }

  /** A leading piece and its '/' do not change the last segment. */
  lemma {:induction false} LastSegmentSkipsPiece(head: string, tail: string)
    requires '/' !in head
    ensures LastSegment(head + ['/'] + tail) == LastSegment(tail)
  {
    SplitAppend(head, '/', tail);
    var xs := SplitOn(tail, '/');
    assert ([head] + xs)[|[head] + xs| - 1] == xs[|xs| - 1];
  }

  // ---------------------------------------------------------------------------
  // Lemmas about the guard

  /** A user whose admin flag is truthy is never redirected. */
  lemma {:induction false} AdminNeverRedirected(fullPath: string, fields: map<string, JsVal>)
    requires "admin" in fields && Truthy(fields["admin"])
    ensures Guard(fullPath, AuthState(true, Obj(fields))) == Continue
  {
  }

  /** A non-admin visiting a path that ends in their own id is let through: "/users/2" for id 2. */
  lemma {:induction false} SelfNotRedirected(prefix: string, id: int, fields: map<string, JsVal>)
    requires "id" in fields && fields["id"] == Num(id)
    ensures Guard(prefix + "/" + Decimal(id), AuthState(true, Obj(fields))) == Continue
  {
    assert '/' !in Decimal(id) by {
      var s := Decimal(id);
      forall i | 0 <= i < |s| ensures s[i] != '/' {
        if id < 0 && i > 0 { assert s[i] == s[1..][i - 1]; }
      }
    }
    LastSegmentAfterLastSlash(prefix, Decimal(id));
    DecimalLooselyEquals(id, id);
  }

  /** A non-admin visiting a path that ends in another id is sent to "/". */
  lemma {:induction false} OtherIdRedirected(prefix: string, id: int, other: int, fields: map<string, JsVal>)
    requires "id" in fields && fields["id"] == Num(id) && other != id
    requires "admin" !in fields || !Truthy(fields["admin"])
    ensures Guard(prefix + "/" + Decimal(other), AuthState(true, Obj(fields))) == Redirect("/")
  {
    assert '/' !in Decimal(other) by {
      var s := Decimal(other);
      forall i | 0 <= i < |s| ensures s[i] != '/' {
        if other < 0 && i > 0 { assert s[i] == s[1..][i - 1]; }
      }
    }
    LastSegmentAfterLastSlash(prefix, Decimal(other));
    DecimalLooselyEquals(other, id);
  }

  /**
   * The guard reads the last segment, not an id parsed from the route: on
   * "/users/<id>/edit" the segment is "edit", which no numeric id equals, so a
   * non-admin is redirected even from their own edit page.
   */
  lemma {:induction false} EditPathRedirectsNonAdmin(id: int, fields: map<string, JsVal>)
    requires "id" in fields && fields["id"] == Num(id)
    requires "admin" !in fields || !Truthy(fields["admin"])
    ensures Guard("/users/" + Decimal(id) + "/edit", AuthState(true, Obj(fields))) == Redirect("/")
  {
    var path := "/users/" + Decimal(id) + "/edit";
    assert path == ("/users/" + Decimal(id)) + "/" + "edit";
    LastSegmentAfterLastSlash("/users/" + Decimal(id), "edit");
    assert LastSegment(path) == "edit";
    LowercaseWordIsNaN("edit");
  }

  /** With no user in the store (null), reading `user.id` throws. */
  lemma {:induction false} NoUserThrows(fullPath: string, loggedIn: bool)
    ensures Guard(fullPath, AuthState(loggedIn, Prim(Null))) == TypeError
  {
  }
}
