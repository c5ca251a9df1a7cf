/**
 * The cookie-string parser of the downloader's constructor (main.py:37-42): a browser-style
 * `name=value; name=value` string becomes a dictionary, and a later duplicate name
 * overwrites an earlier one.
 */
module Cookies {
  import opened Wrappers
  import opened Text

  /** `piece.split("=", 1)` on a piece holding a `=`: the name before the first `=`, the value
      after it. A piece without `=` is skipped. */
  function ParsePair(piece: string): (r: Option<(string, string)>)
    ensures r.None? <==> !Contains(piece, "=")
    ensures r.Some? ==> piece == r.value.0 + "=" + r.value.1 && !Contains(r.value.0, "=")
  {
    match Find(piece, "=", 0)
    case None => None
    case Some(i) =>
      var name := piece[..i];
      assert !Contains(name, "=") by {
        forall j | 0 <= j < i ensures !OccursAt(name, "=", j) {
          assert !OccursAt(piece, "=", j);
          assert piece[j..j + 1] == name[j..j + 1];
        }
      }
      assert piece[i..i + 1] == "=";
      assert piece == name + "=" + piece[i + 1..];
      Some((name, piece[i + 1..]))
  }

  /** A name without `=` and any value, joined by `=`, are split back apart. */
  lemma ParsePairRoundTrip(name: string, value: string)
    requires !Contains(name, "=")
    ensures ParsePair(name + "=" + value) == Some((name, value))
  {
    var piece := name + "=" + value;
    assert OccursAt(piece, "=", |name|);
    forall j | 0 <= j < |name| ensures !OccursAt(piece, "=", j) {
      if OccursAt(piece, "=", j) {
        assert name[j] == '=';
        assert OccursAt(name, "=", j);
      }
    }
    assert piece[..|name|] == name;
    assert piece[|name| + 1..] == value;
  }

  /** The dictionary the loop has built after the given pieces, in order. */
  function Jar(pieces: seq<string>): (m: map<string, string>)
    ensures forall k :: k in m ==> !Contains(k, "=")
  {
    if pieces == [] then map[]
    else
      var m := Jar(pieces[..|pieces| - 1]);
      match ParsePair(pieces[|pieces| - 1])
      case None => m
      case Some((k, v)) => m[k := v]
  }

  /** `cookie_dict` for the whole cookie string; an empty string gives an empty dictionary. */
  function CookieJar(cookies: string): map<string, string> {
    if cookies == "" then map[] else Jar(Split(cookies, "; "))
  }

  /** A name is in the dictionary exactly when some piece carries it. */
  lemma {:induction false} JarNames(pieces: seq<string>, k: string)
    ensures k in Jar(pieces) <==>
      exists i :: 0 <= i < |pieces| && ParsePair(pieces[i]).Some? && ParsePair(pieces[i]).value.0 == k
  {
    if pieces != [] {
      var init := pieces[..|pieces| - 1];
      JarNames(init, k);
      assert forall i :: 0 <= i < |init| ==> init[i] == pieces[i];
    }
  }

  /** The last piece carrying a name decides its value: later duplicates overwrite. */
  lemma {:induction false} JarLastWins(pieces: seq<string>, i: nat, k: string, v: string)
    requires i < |pieces| && ParsePair(pieces[i]) == Some((k, v))
    requires forall j :: i < j < |pieces| ==> ParsePair(pieces[j]).None? || ParsePair(pieces[j]).value.0 != k
    ensures k in Jar(pieces) && Jar(pieces)[k] == v
  {
    if i < |pieces| - 1 {
      var init := pieces[..|pieces| - 1];
      assert init[i] == pieces[i];
      forall j | i < j < |init| ensures ParsePair(init[j]).None? || ParsePair(init[j]).value.0 != k {
        assert init[j] == pieces[j];
      }
      JarLastWins(init, i, k, v);
      var last := pieces[|pieces| - 1];
      assert ParsePair(last).None? || ParsePair(last).value.0 != k;
    }
  }

  /** The loop of main.py:38-42 filling `cookie_dict`. */
  method ParseCookies(cookies: string) returns (jar: map<string, string>)
    ensures jar == CookieJar(cookies)
  {
    jar := map[];
    if cookies != "" {
      var pieces := Split(cookies, "; ");
      var i := 0;
      while i < |pieces|
        invariant 0 <= i <= |pieces|
        invariant jar == Jar(pieces[..i])
      {
        assert pieces[..i + 1][..i] == pieces[..i];
        var piece := pieces[i];
        if Contains(piece, "=") {
          var (name, value) := ParsePair(piece).value;
          jar := jar[name := value];
        }
        i := i + 1;
      }
      assert pieces[..|pieces|] == pieces;
    }
  }
}
