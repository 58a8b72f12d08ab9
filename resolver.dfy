/**
 * The stack-frame location resolver of `RorVsWild::Client`: it turns frames
 * of the form `path:line:in `method'` into a file, a line and a method name.
 * `root` stands for `Rails.root.to_s`, the application's root directory.
 */
module Resolver {
  import opened Wrappers
  import opened Text

  /**
   * The one failure the resolver can raise: a frame whose split has no
   * third part leaves the method name `nil`, and `cleanup_method_name`
   * then calls `sub!` on `nil`.
   */
  datatype Fault = NoMethodError

  /** A resolved location; `method` is `nil` for compiled view templates. */
  datatype Location = Location(file: string, line: string, methodName: Option<string>)

  /** Method names with this prefix belong to compiled view templates. */
  const CompiledViewPrefix: string := "_app_views_"

  /**
   * `cleanup_method_name`: removes the first `"block in "`, then the first
   * ``"in `"``, then the first `"'"`; a name that then starts with the
   * compiled-view prefix gives `nil`.
   */
  function CleanupMethodName(m: string): (r: Option<string>)
    ensures var stripped := Sub(Sub(Sub(m, "block in ", ""), "in `", ""), "'", "");
            (r.None? <==> StartsWith(stripped, CompiledViewPrefix)) && (r.Some? ==> r.value == stripped)
    ensures r.Some? ==> !StartsWith(r.value, CompiledViewPrefix)
    ensures r.Some? ==> |r.value| <= |m|
  {
    var stripped := Sub(Sub(Sub(m, "block in ", ""), "in `", ""), "'", "");
    IndexZeroIsPrefix(stripped, CompiledViewPrefix);
    if IndexOf(stripped, CompiledViewPrefix) == Some(0) then None
    else Some(stripped)
  }

  /** An occurrence with none before it is the one `IndexOf` reports. */
  lemma FirstOccurrence(s: string, pat: string, i: nat)
    requires OccursAt(s, pat, i)
    requires forall j :: 0 <= j < i ==> !OccursAt(s, pat, j)
    ensures IndexOf(s, pat) == Some(i)
  {
  }

  /** A character of `pat` that `s` only holds too early rules out any occurrence. */
  lemma NoOccurrence(s: string, pat: string, k: nat)
    requires k < |pat|
    requires forall p :: 0 <= p < |s| && s[p] == pat[k] ==> p < k
    ensures !Contains(s, pat)
  {
    forall i | 0 <= i ensures !OccursAt(s, pat, i) {
      if i + |pat| <= |s| {
        assert s[i..i + |pat|][k] == s[i + k];
      }
    }
  }

  /** Removing the closing quote of `w + "'"` leaves `w`. */
  lemma SubClosingQuote(w: string)
    requires '\'' !in w
    ensures Sub(w + "'", "'", "") == w
  {
    var s := w + "'";
    assert s[|w|..|w| + 1] == "'";
    forall j | 0 <= j < |w| ensures !OccursAt(s, "'", j) {
      assert s[j..j + 1][0] == w[j];
    }
    FirstOccurrence(s, "'", |w|);
    assert s[..|w|] == w;
  }

  /** After `"block in "` is gone, ``in `w'`` cleans up to `w`. */
  lemma CleanupQuoted(w: string)
    requires '\'' !in w
    ensures Sub(Sub("in `" + w + "'", "in `", ""), "'", "") == w
  {
    var s := "in `" + w + "'";
    assert StartsWith(s, "in `") by { assert s[..4] == "in `"; }
    SubLeading(s, "in `");
    assert s[4..] == w + "'";
    SubClosingQuote(w);
  }

  /** `index(prefix) == 0` is the test for a leading prefix. */
  lemma IndexZeroIsPrefix(s: string, prefix: string)
    ensures IndexOf(s, prefix) == Some(0) <==> StartsWith(s, prefix)
  {
    if StartsWith(s, prefix) {
      assert s[0..|prefix|] == s[..|prefix|];
      FirstOccurrence(s, prefix, 0);
    }
  }

  /** An occurrence of `"block in "` in ``in `w'`` lies inside `w`. */
  lemma QuotedOccurrence(w: string, i: nat)
    requires OccursAt("in `" + w + "'", "block in ", i)
    ensures i >= 4 && OccursAt(w, "block in ", i - 4)
  {
    var plain := "in `" + w + "'";
    assert |plain| == |w| + 5 && plain[|w| + 4] == '\'';
    assert forall k :: 0 <= k < |w| ==> plain[k + 4] == w[k];
    var occ := plain[i..i + 9];
    assert occ[0] == plain[i] && occ[8] == plain[i + 8];
    assert i != 0 && i != 1 && i != 2 && i != 3;
    assert i + 9 != |plain|;
    assert w[i - 4..i + 5] == occ;
  }

  /** ``in `w'`` holds `"block in "` only where `w` does. */
  lemma BlockInsideQuotes(w: string)
    ensures Contains("in `" + w + "'", "block in ") ==> Contains(w, "block in ")
  {
    var plain := "in `" + w + "'";
    if Contains(plain, "block in ") {
      var i := IndexOf(plain, "block in ").value;
      QuotedOccurrence(w, i);
    }
  }

  /**
   * The method name of a frame ``in `w'`` cleans up to `w`, for any `w`
   * without a quote or `"block in "`: `rescue in foo` and
   * `block (2 levels) in foo` included.
   */
  lemma CleanupPlainFrame(w: string)
    requires '\'' !in w && !Contains(w, "block in ")
    ensures CleanupMethodName("in `" + w + "'") ==
            (if StartsWith(w, CompiledViewPrefix) then None else Some(w))
  {
    BlockInsideQuotes(w);
    CleanupQuoted(w);
  }

  /** The method name of a block frame ``in `block in w'`` cleans up to `w`. */
  lemma CleanupBlockFrame(w: string)
    requires '\'' !in w
    ensures CleanupMethodName("in `block in " + w + "'") ==
            (if StartsWith(w, CompiledViewPrefix) then None else Some(w))
  {
    var pat := "block in ";
    var block := "in `block in " + w + "'";
    assert OccursAt(block, pat, 4) by { assert block[4..13] == pat; }
    forall j | 0 <= j < 4 ensures !OccursAt(block, pat, j) {
      assert block[j] != 'b';
    }
    FirstOccurrence(block, pat, 4);
    assert Sub(block, pat, "") == "in `" + w + "'" by {
      assert block[..4] + "" + block[13..] == "in `" + w + "'";
    }
    CleanupQuoted(w);
  }

  /**
   * `split_file_location`: the first three `:`-separated parts are the file,
   * the line and the method name; with fewer than three parts the method
   * name is `nil` and its cleanup raises.
   */
  function SplitFileLocation(location: string): (r: Result<Location, Fault>)
    ensures r.Err? <==> |Split(location, ':')| < 3
    ensures r.Ok? ==> ':' !in r.value.file && ':' !in r.value.line
    ensures r.Ok? ==>
              var head := r.value.file + ":" + r.value.line + ":";
              StartsWith(location, head) &&
              r.value.methodName == CleanupMethodName(FieldBefore(location[|head|..], ':'))
  {
    var parts := Split(location, ':');
    if |parts| < 3 then Err(NoMethodError)
    else
      SplitHead(location, ':');
      Ok(Location(parts[0], parts[1], CleanupMethodName(parts[2])))
  }

  /** The first three fields of `file:line:method` followed by `:`-led text. */
  lemma FrameFields(file: string, line: string, m: string, tail: string)
    requires ':' !in file && ':' !in line && ':' !in m
    requires tail == "" || tail[0] == ':'
    ensures var fs := Fields(file + ":" + line + ":" + m + tail, ':');
            |fs| >= 3 && fs[0] == file && fs[1] == line && fs[2] == m
  {
    var location := file + ":" + line + ":" + m + tail;
    assert location == file + [':'] + (line + [':'] + (m + tail));
    FieldsCons(file, line + [':'] + (m + tail), ':');
    FieldsCons(line, m + tail, ':');
    if tail == "" {
      assert m + tail == m;
      FieldsNoSep(m, ':');
    } else {
      assert tail == [':'] + tail[1..];
      assert m + tail == m + [':'] + tail[1..];
      FieldsCons(m, tail[1..], ':');
    }
  }

  /**
   * A well-formed `file:line:method` frame splits back into its parts,
   * whatever `:`-led text follows the method (as in ``in `<class:Foo>'``).
   */
  lemma SplitWellFormedFrame(file: string, line: string, m: string, tail: string)
    requires ':' !in file && ':' !in line && ':' !in m && m != ""
    requires tail == "" || tail[0] == ':'
    ensures SplitFileLocation(file + ":" + line + ":" + m + tail) ==
            Ok(Location(file, line, CleanupMethodName(m)))
  {
    var location := file + ":" + line + ":" + m + tail;
    FrameFields(file, line, m, tail);
    var fs := Fields(location, ':');
    var parts := Split(location, ':');
    assert parts == DropTrailingEmpty(fs);
    assert |parts| >= 3;
    assert parts[..3] == fs[..3];
  }

  /** A frame with at most one `:` has no method part, so splitting it raises. */
  lemma SplitFrameWithoutMethod(location: string)
    requires forall i, j :: 0 <= i < j < |location| ==> !(location[i] == ':' && location[j] == ':')
    ensures SplitFileLocation(location) == Err(NoMethodError)
  {
    SplitShort(location, ':');
  }

  /** `relative_path`: the first occurrence of the root is removed. */
  function RelativePath(path: string, root: string): (r: string)
    ensures Contains(path, root) ==> |r| == |path| - |root|
    ensures StartsWith(path, root) ==> r == path[|root|..]
    ensures !Contains(path, root) ==> r == path
    ensures Contains(path, root) ==>
              var i := IndexOf(path, root).value;
              r == path[..i] + path[i + |root|..]
  {
    if StartsWith(path, root) then SubLeading(path, root); Sub(path, root, "")
    else Sub(path, root, "")
  }

  /** The index of the first frame that contains the root, if any (Ruby `find`). */
  function FirstContaining(stack: seq<string>, root: string): (r: Option<nat>)
    ensures r.Some? ==> r.value < |stack| && Contains(stack[r.value], root)
    ensures r.Some? ==> forall j :: 0 <= j < r.value ==> !Contains(stack[j], root)
    ensures r.None? ==> forall j :: 0 <= j < |stack| ==> !Contains(stack[j], root)
  {
    if stack == [] then None
    else if Contains(stack[0], root) then Some(0)
    else match FirstContaining(stack[1..], root)
      case None => None
      case Some(k) => Some(k + 1)
  }

  /** A frame that contains the root with none before it is the one `find` returns. */
  lemma FirstContainingFirst(stack: seq<string>, root: string, i: nat)
    requires i < |stack| && Contains(stack[i], root)
    requires forall j :: 0 <= j < i ==> !Contains(stack[j], root)
    ensures FirstContaining(stack, root) == Some(i)
  {
  }

  /**
   * `extract_query_location`: the first frame that contains the root (as a
   * substring, anywhere in it), with that occurrence removed, split into a
   * location; `nil` when no frame contains the root.
   */
  function QueryLocation(stack: seq<string>, root: string): (r: Result<Option<Location>, Fault>)
    ensures r == Ok(None) <==> forall j :: 0 <= j < |stack| ==> !Contains(stack[j], root)
    ensures forall i :: 0 <= i < |stack| && Contains(stack[i], root) &&
                        (forall j :: 0 <= j < i ==> !Contains(stack[j], root)) ==>
              var split := SplitFileLocation(Sub(stack[i], root, ""));
              (r.Err? <==> split.Err?) && (r.Ok? ==> r.value == Some(split.value))
  {
    assert forall i :: 0 <= i < |stack| && Contains(stack[i], root) &&
                       (forall j :: 0 <= j < i ==> !Contains(stack[j], root)) ==>
             FirstContaining(stack, root) == Some(i) by {
      forall i | 0 <= i < |stack| && Contains(stack[i], root) &&
                 (forall j :: 0 <= j < i ==> !Contains(stack[j], root))
        ensures FirstContaining(stack, root) == Some(i)
      {
        FirstContainingFirst(stack, root, i);
      }
    }
    match FirstContaining(stack, root)
    case None => Ok(None)
    case Some(i) =>
      match SplitFileLocation(Sub(stack[i], root, ""))
      case Ok(location) => Ok(Some(location))
      case Err(e) => Err(e)
  }

  /**
   * `extract_error_location`: the query location when there is one,
   * otherwise the first frame split as it is; an empty stack has no first
   * frame and splitting `nil` raises.
   */
  function ErrorLocation(stack: seq<string>, root: string): (r: Result<Location, Fault>)
    ensures QueryLocation(stack, root).Err? ==> r.Err?
    ensures QueryLocation(stack, root).Ok? && QueryLocation(stack, root).value.Some? ==>
              r == Ok(QueryLocation(stack, root).value.value)
    ensures (forall j :: 0 <= j < |stack| ==> !Contains(stack[j], root)) ==>
              r == (if stack == [] then Err(NoMethodError) else SplitFileLocation(stack[0]))
  {
    match QueryLocation(stack, root)
    case Err(e) => Err(e)
    case Ok(Some(location)) => Ok(location)
    case Ok(None) => if stack == [] then Err(NoMethodError) else SplitFileLocation(stack[0])
  }

  /** A method name as Ruby prints it in a frame, outside compiled views. */
  predicate ValidMethodName(w: string) {
    ':' !in w && '\'' !in w && !Contains(w, "block in ") && !StartsWith(w, CompiledViewPrefix)
  }

  /** A frame ``file:line:in `w'`` splits into its file, its line and `w`. */
  lemma PlainFrameSplits(file: string, line: string, w: string)
    requires ':' !in file && ':' !in line && ValidMethodName(w)
    ensures SplitFileLocation(file + ":" + line + ":in `" + w + "'") == Ok(Location(file, line, Some(w)))
  {
    var m := "in `" + w + "'";
    assert file + ":" + line + ":in `" + w + "'" == file + ":" + line + ":" + m + "";
    SplitWellFormedFrame(file, line, m, "");
    CleanupPlainFrame(w);
  }

  /** A frame that starts with the root contains it, and `sub` strips exactly the root. */
  lemma StripLeadingRoot(root: string, rest: string)
    ensures Contains(root + rest, root) && Sub(root + rest, root, "") == rest
  {
    var app := root + rest;
    assert StartsWith(app, root) by { assert app[..|root|] == root; }
    IndexZeroIsPrefix(app, root);
    SubLeading(app, root);
    assert app[|root|..] == rest;
  }

  /**
   * A stack whose first frame lies outside the application and whose second
   * is an application frame resolves to the second, stripped of the root.
   */
  lemma ResolvesSecondFrame(outside: string, root: string, file: string, line: string, w: string)
    requires !Contains(outside, root)
    requires ':' !in file && ':' !in line && ValidMethodName(w)
    ensures QueryLocation([outside, root + (file + ":" + line + ":in `" + w + "'")], root)
         == Ok(Some(Location(file, line, Some(w))))
  {
    var rest := file + ":" + line + ":in `" + w + "'";
    StripLeadingRoot(root, rest);
    PlainFrameSplits(file, line, w);
    FirstContainingFirst([outside, root + rest], root, 1);
  }

  /** The first frame of a stack with no application frame is the error location. */
  lemma ErrorFallsBackToFirst(root: string, file: string, line: string, w: string)
    requires !Contains(file + ":" + line + ":in `" + w + "'", root)
    requires ':' !in file && ':' !in line && ValidMethodName(w)
    ensures QueryLocation([file + ":" + line + ":in `" + w + "'"], root) == Ok(None)
    ensures ErrorLocation([file + ":" + line + ":in `" + w + "'"], root) == Ok(Location(file, line, Some(w)))
  {
    PlainFrameSplits(file, line, w);
  }

  /** The root `/app` does not occur in a frame without the letter `p`. */
  lemma OutsideApp(frame: string, root: string)
    requires root == "/app" && 'p' !in frame
    ensures !Contains(frame, root)
  {
    NoOccurrence(frame, root, 2);
  }

  /** With no frame under `/app`, an error is located at the first frame. */
  lemma FirstFrameFallbackExample(gem: string, root: string)
    requires gem == "/gems/x.rb:10:in `foo'"
    requires root == "/app"
    ensures ErrorLocation([gem], root) == Ok(Location("/gems/x.rb", "10", Some("foo")))
  {
    assert gem == "/gems/x.rb" + ":" + "10" + ":in `" + "foo" + "'";
    OutsideApp(gem, root);
    ErrorFallsBackToFirst(root, "/gems/x.rb", "10", "foo");
  }
}
