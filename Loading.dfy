/** The loading screen's progress percentage and the asset name it shows. */
module Loading {

  /** `Math.floor(progress * 100)`. */
  function LoadPercent(progress: real): (p: int)
    ensures p as real <= progress * 100.0 < p as real + 1.0
    ensures 0.0 <= progress <= 1.0 ==> 0 <= p <= 100
  {
    (progress * 100.0).Floor
  }

  /** `s.split(c)`: the pieces between the separators, at least one. */
  function Split(s: string, c: char): (parts: seq<string>)
    ensures |parts| >= 1
    ensures forall i :: 0 <= i < |parts| ==> c !in parts[i]
  {
    if s == [] then [""]
    else
      var rest := Split(s[1..], c);
      if s[0] == c then [""] + rest else [[s[0]] + rest[0]] + rest[1..]
  }

  /** The pieces joined back with the separator. */
  function Join(parts: seq<string>, c: char): string
    requires |parts| >= 1
  {
    if |parts| == 1 then parts[0] else parts[0] + [c] + Join(parts[1..], c)
  }

  lemma {:induction false} SplitJoin(s: string, c: char)
    ensures Join(Split(s, c), c) == s
  {
    if s != [] {
      SplitJoin(s[1..], c);
      var rest := Split(s[1..], c);
      if s[0] != c {
        if |rest| > 1 {
          assert ([[s[0]] + rest[0]] + rest[1..])[1..] == rest[1..];
        }
      }
    }
  }

  /** The first piece is what precedes the first separator. */
  lemma {:induction false} SplitFirst(s: string, c: char)
    ensures var first := Split(s, c)[0];
      |first| <= |s| && s[..|first|] == first && (|first| < |s| ==> s[|first|] == c)
  {
    if s != [] {
      SplitFirst(s[1..], c);
    }
  }

  /** The last piece is what follows the last separator. */
  lemma {:induction false} SplitLast(s: string, c: char)
    ensures var parts := Split(s, c); var last := parts[|parts| - 1];
      && |last| <= |s| && s[|s| - |last|..] == last
      && (|last| < |s| ==> s[|s| - |last| - 1] == c)
      && (|parts| > 1 ==> |last| < |s|)
  {
    if s != [] {
      SplitLast(s[1..], c);
      var rest := Split(s[1..], c);
      var parts := Split(s, c);
      if s[0] != c && |rest| == 1 {
        SplitJoin(s[1..], c);
        assert parts == [[s[0]] + rest[0]];
        assert s == [s[0]] + s[1..];
      } else {
        var last := rest[|rest| - 1];
        assert parts[|parts| - 1] == last;
        if |last| < |s| - 1 {
          assert s[|s| - |last| - 1] == s[1..][|s| - 1 - |last| - 1];
        }
      }
    }
  }

  /** A string without the separator is a single piece. */
  lemma {:induction false} SplitWithout(s: string, c: char)
    requires c !in s
    ensures Split(s, c) == [s]
  {
    if s != [] {
      assert c !in s[1..];
      SplitWithout(s[1..], c);
      assert s == [s[0]] + s[1..];
    }
  }

  /** `item.split('/').pop()?.split('.')[0] || item`: the file name without
    * its directories and extensions, or the whole item when that is empty. */
  function AssetName(item: string): (name: string)
    ensures item != "" ==> name != ""
    ensures name == item || '.' !in name
  {
    var segments := Split(item, '/');
    var last := segments[|segments| - 1];
    var stem := Split(last, '.')[0];
    if stem == "" then item else stem
  }

  /** `name` occurs in `item` at `i`, right after the last '/' (or at the
    * start), and ends at a '.' (or at the end). */
  predicate StemAt(item: string, name: string, i: int) {
    && 0 <= i && i + |name| <= |item| && item[i..i + |name|] == name
    && '/' !in item[i..]
    && (i == 0 || item[i - 1] == '/')
    && (i + |name| == |item| || item[i + |name|] == '.')
  }

  /** Only the start of the last path segment can hold a stem. */
  lemma StemStart(item: string, name: string, i: int, j: int)
    requires StemAt(item, name, i)
    requires 0 <= j <= |item| && '/' !in item[j..] && (j == 0 || item[j - 1] == '/')
    ensures i == j
  {
  }

  /** The shown name, in its two cases.  When the last path segment is
    * empty or starts with '.', its stem is empty and the whole item is
    * shown.  Otherwise the name is that segment's part before its first
    * '.': it starts the last segment, contains no '.', and ends at a '.' or
    * at the end of the item. */
  lemma AssetNameSpec(item: string)
    ensures var name := AssetName(item);
      && ((exists i :: StemAt(item, "", i)) ==> name == item)
      && (!(exists i :: StemAt(item, "", i)) ==>
            name != "" && '/' !in name && '.' !in name && exists i :: StemAt(item, name, i))
  {
    var segments := Split(item, '/');
    var last := segments[|segments| - 1];
    var stem := Split(last, '.')[0];
    SplitLast(item, '/');
    SplitFirst(last, '.');
    var i := |item| - |last|;
    assert item[i..] == last;
    if stem != "" {
      assert item[i..i + |stem|] == last[..|stem|];
      assert StemAt(item, stem, i);
      if exists j :: StemAt(item, "", j) {
        var j :| StemAt(item, "", j);
        StemStart(item, "", j, i);
        assert false;
      }
    } else {
      if last != "" {
        assert last[0] == '.';
      }
      assert StemAt(item, "", i);
    }
  }

  /** A plain name without directories or extension is shown unchanged. */
  lemma PlainNameUnchanged(item: string)
    requires '/' !in item && '.' !in item
    ensures AssetName(item) == item
  {
    SplitWithout(item, '/');
    SplitWithout(item, '.');
  }

  /** The status line. */
  function StatusText(item: string): (text: string)
    ensures text == "Loading " + AssetName(item) + "..."
    ensures text[..8] == "Loading " && text[|text| - 3..] == "..."
  {
    "Loading " + AssetName(item) + "..."
  }
}
