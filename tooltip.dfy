/** The text of the tooltip shown over a tool button: the tool's path with the
    leading `.\tools\` removed and every backslash turned into a slash. */
module Tooltip {
  import opened Wrappers
  import opened Text

  /** The directory prefix the launcher hides in tooltips. */
  const ToolsPrefix: string := ".\\tools\\"

  /** The tooltip for a tool stored at `path`. */
  function TooltipText(path: string): string
  {
    var shown := match StripPrefix(path, ToolsPrefix)
      case Some(rest) => rest
      case None => path;
    ReplaceChar(shown, '\\', '/')
  }

  /** `tip` is `path` from position `offset` on, each backslash shown as a slash. */
  predicate ShowsFrom(tip: string, path: string, offset: nat)
  {
    && offset <= |path|
    && |tip| == |path| - offset
    && forall i :: 0 <= i < |tip| ==>
         tip[i] == if path[offset + i] == '\\' then '/' else path[offset + i]
  }

  /** Character by character, the tooltip is the path after the prefix (if
      present) with each backslash shown as a slash. */
  lemma TooltipAt(path: string)
    ensures ToolsPrefix <= path ==> ShowsFrom(TooltipText(path), path, |ToolsPrefix|)
    ensures !(ToolsPrefix <= path) ==> ShowsFrom(TooltipText(path), path, 0)
  {
    var offset: nat := if ToolsPrefix <= path then |ToolsPrefix| else 0;
    var shown := path[offset..];
    var tip := ReplaceChar(shown, '\\', '/');
    assert TooltipText(path) == tip;
    forall i | 0 <= i < |tip|
      ensures tip[i] == if path[offset + i] == '\\' then '/' else path[offset + i]
    {
      assert shown[i] == path[offset + i];
    }
    assert ShowsFrom(tip, path, offset);
  }

  /** A path under `.\tools\` is shown without that prefix. */
  lemma TooltipOfPrefixed(rest: string)
    ensures TooltipText(ToolsPrefix + rest) == ReplaceChar(rest, '\\', '/')
  {
    var path := ToolsPrefix + rest;
    assert ToolsPrefix <= path;
    assert path[|ToolsPrefix|..] == rest;
  }

  /** A path that does not start with `.\tools\` is shown whole. */
  lemma TooltipOfUnprefixed(path: string)
    requires !(ToolsPrefix <= path)
    ensures TooltipText(path) == ReplaceChar(path, '\\', '/')
  {
  }

  /** No tooltip contains a backslash. */
  lemma TooltipHasNoBackslash(path: string)
    ensures '\\' !in TooltipText(path)
  {
    var shown := match StripPrefix(path, ToolsPrefix)
      case Some(rest) => rest
      case None => path;
    ReplaceCharRemoves(shown, '\\', '/');
  }

  /** Rewriting a tooltip once more changes nothing: it has no backslash, so
      neither the prefix nor any replacement applies. */
  lemma TooltipIdempotent(path: string)
    ensures TooltipText(TooltipText(path)) == TooltipText(path)
  {
    var tip := TooltipText(path);
    TooltipHasNoBackslash(path);
    ReplaceCharAbsent(tip, '\\', '/');
  }
}
