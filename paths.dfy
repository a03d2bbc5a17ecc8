/** The part of Node's POSIX `path` module the services use: `dirname`, `join` and the
    `normalize` that `join` ends with. Paths are plain strings with `/` as separator;
    there is no file system behind them. */
module Paths {
  import opened Strings

  /** One step of normalisation: `""` and `"."` segments vanish; `".."` removes the
      previous segment when there is one that is not itself `".."`, and otherwise is kept
      in a relative path and dropped at the root of an absolute one. */
  function Step(stack: seq<string>, segment: string, absolute: bool): seq<string> {
    if segment == "" || segment == "." then stack
    else if segment == ".." then
      if |stack| > 0 && stack[|stack| - 1] != ".." then stack[..|stack| - 1]
      else if absolute then stack
      else stack + [".."]
    else stack + [segment]
  }

  /** The segments left after normalising `segments` from left to right. */
  function Resolve(segments: seq<string>, absolute: bool): (r: seq<string>)
    ensures forall k :: 0 <= k < |r| ==> r[k] != "" && r[k] != "."
  {
    if segments == [] then []
    else Step(Resolve(segments[..|segments| - 1], absolute), segments[|segments| - 1], absolute)
  }

  /** `path.normalize(p)`. */
  function Normalize(p: string): (r: string)
    ensures r != ""
  {
    if p == "" then "."
    else
      var absolute := p[0] == '/';
      var trailing := p[|p| - 1] == '/';
      var body := Join(Resolve(Split(p, '/'), absolute), "/");
      if body == "" then (if absolute then "/" else if trailing then "./" else ".")
      else (if absolute then "/" else "") + body + (if trailing then "/" else "")
  }

  /** `path.join(a, b)`: the non-empty arguments joined by `/`, then normalised. */
  function PathJoin(a: string, b: string): (r: string)
    ensures r != ""
  {
    if a == "" && b == "" then "."
    else if a == "" then Normalize(b)
    else if b == "" then Normalize(a)
    else Normalize(a + "/" + b)
  }

  /** `p` without its trailing separators, keeping at least its first character. */
  function TrimTrailing(p: string): (t: string)
    ensures |t| <= |p| && t == p[..|t|]
    ensures p != [] ==> |t| >= 1
  {
    if |p| > 1 && p[|p| - 1] == '/' then TrimTrailing(p[..|p| - 1]) else p
  }

  /** Index of the last `/` in `t` at a position of at least 1, or 0 when there is none. */
  function LastSeparator(t: string): (j: nat)
    ensures j < |t| || j == 0
    ensures j > 0 ==> t[j] == '/'
    ensures forall k :: j < k < |t| && k >= 1 ==> t[k] != '/'
  {
    if |t| <= 1 then 0
    else if t[|t| - 1] == '/' then |t| - 1
    else LastSeparator(t[..|t| - 1])
  }

  /** `path.dirname(p)`. */
  function Dirname(p: string): (r: string)
    ensures r != ""
  {
    if p == "" then "."
    else
      var hasRoot := p[0] == '/';
      var t := TrimTrailing(p);
      var j := LastSeparator(t);
      if j == 0 then (if hasRoot then "/" else ".")
      else if hasRoot && j == 1 then "//"
      else t[..j]
  }
}
