/** The change-log panel: the most recent entries of the client's change log,
    newest first, each prefixed with the time of rendering. */
module ChangeLog {

  /** How many entries the panel shows (`logs.slice(-10)`). */
  const WindowSize: nat := 10

  function Min(a: int, b: int): int
  {
    if a <= b then a else b
  }

  /** `s.slice(start)` as JavaScript defines it for an array: a negative start
      counts back from the end and is clamped at 0, a start past the end gives
      the empty array. The result is always a suffix of `s`. */
  function SliceFrom<T>(s: seq<T>, start: int): (r: seq<T>)
    ensures |r| <= |s| && r == s[|s| - |r|..]
    ensures start < 0 ==> |r| == Min(-start, |s|)
    ensures 0 <= start ==> |r| == |s| - Min(start, |s|)
  {
    var k := if start < 0 then (if |s| + start < 0 then 0 else |s| + start)
             else (if |s| < start then |s| else start);
    s[k..]
  }

  /** `s.reverse()` on a fresh copy: element k of the result is element
      |s| - 1 - k of the input. */
  function Reverse<T>(s: seq<T>): (r: seq<T>)
    ensures |r| == |s|
    ensures forall k :: 0 <= k < |s| ==> r[k] == s[|s| - 1 - k]
  {
    if s == [] then [] else Reverse(s[1..]) + [s[0]]
  }

  /** `logs.slice(-10).reverse()`: the entries the panel lists, newest first. */
  function Recent<T>(logs: seq<T>): (r: seq<T>)
    ensures |r| == Min(WindowSize, |logs|)
    ensures forall k :: 0 <= k < |r| ==> r[k] == logs[|logs| - 1 - k]
  {
    Reverse(SliceFrom(logs, -(WindowSize as int)))
  }

  /** `formatLog`: the time string (the output of `toLocaleTimeString`, an
      opaque parameter here) then " - " then the entry. */
  function FormatLog(time: string, log: string): (line: string)
    ensures |line| == |time| + 3 + |log|
    ensures line[..|time|] == time && line[|time|..|time| + 3] == " - " && line[|time| + 3..] == log
  {
    time + " - " + log
  }

  /** The lines of the rendered list for a given time string. */
  function Rendered(logs: seq<string>, time: string): (lines: seq<string>)
    ensures |lines| == Min(WindowSize, |logs|)
    ensures forall k :: 0 <= k < |lines| ==> lines[k] == FormatLog(time, logs[|logs| - 1 - k])
  {
    var window := Recent(logs);
    seq(|window|, k requires 0 <= k < |window| => FormatLog(time, window[k]))
  }

  /** With at most WindowSize entries nothing is dropped: the panel shows the
      whole log in reverse. */
  lemma RecentKeepsShortLog<T>(logs: seq<T>)
    requires |logs| <= WindowSize
    ensures Recent(logs) == Reverse(logs)
  {
  }

  /** Appending an entry puts it first; once the log holds WindowSize entries
      or more, the entry that was shown last (the oldest one displayed) is
      dropped and the rest keep their order behind the new one. */
  lemma RecentAppend<T>(logs: seq<T>, x: T)
    ensures var before, after := Recent(logs), Recent(logs + [x]);
      if |logs| < WindowSize then after == [x] + before
      else after == [x] + before[..WindowSize - 1]
  {
  }

  /** When the log is full, the entry an append drops (the last one shown) is
      the oldest entry displayed, logs[|logs| - WindowSize]. */
  lemma OldestDisplayed<T>(logs: seq<T>)
    requires WindowSize <= |logs|
    ensures Recent(logs)[WindowSize - 1] == logs[|logs| - WindowSize]
  {
  }
}
