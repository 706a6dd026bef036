/** The launcher's application state and the per-frame steps that change it:
    launching a tool, dismissing the error window, editing the search text
    and picking a category in the sidebar. The filesystem existence check is
    an oracle `pathExists`; what the user clicks in a frame is an input. */
module App {
  import opened Wrappers
  import opened Text
  import opened Registry
  import opened ToolFilter
  import opened Grid

  /** The version label when the `tools/Version` file is missing or unreadable. */
  const UnknownVersion: string := "未知"

  /** The error text for a tool whose executable is not on disk. */
  function MissingToolMessage(name: string, path: string): string
  {
    "找不到工具：" + name + "\n路径：" + path
  }

  /** The error text names the tool and the path that was looked for. */
  lemma MissingToolMessageMentions(name: string, path: string)
    ensures Contains(MissingToolMessage(name, path), name)
    ensures Contains(MissingToolMessage(name, path), path)
  {
    var head := "找不到工具：";
    var middle := "\n路径：";
    var msg := MissingToolMessage(name, path);
    assert msg == head + name + middle + path;
    assert msg[|head|..|head| + |name|] == name;
    ContainsAtIndex(msg, name, |head|);
    var at := |head| + |name| + |middle|;
    assert msg[at..at + |path|] == path;
    ContainsAtIndex(msg, path, at);
  }

  /** What a launch request for a registry index leads to. */
  datatype LaunchOutcome =
    | OutOfRange              // the index is past the registry: nothing happens
    | PathMissing(message: string)  // the executable is missing: an error is reported
    | Opened(path: string)    // the path is handed to the shell's "open" action

  /** The outcome of asking to launch the tool at `index`. */
  function Launch(tools: seq<Tool>, index: nat, pathExists: string -> bool): (o: LaunchOutcome)
    ensures o.OutOfRange? <==> index >= |tools|
    ensures o.PathMissing? <==> index < |tools| && !pathExists(tools[index].path)
    ensures o.Opened? <==> index < |tools| && pathExists(tools[index].path)
    ensures o.Opened? ==> o.path == tools[index].path
    ensures o.PathMissing? ==> o.message == MissingToolMessage(tools[index].name, tools[index].path)
  {
    if index >= |tools| then OutOfRange
    else if !pathExists(tools[index].path) then PathMissing(MissingToolMessage(tools[index].name, tools[index].path))
    else Opened(tools[index].path)
  }

  /** A launch reports an error exactly when the index is in range and the
      path is missing, and the error names that tool and its path. */
  lemma LaunchReportsMissingTool(tools: seq<Tool>, index: nat, pathExists: string -> bool)
    ensures Launch(tools, index, pathExists).PathMissing?
      <==> index < |tools| && !pathExists(tools[index].path)
    ensures Launch(tools, index, pathExists).PathMissing? ==>
      && Contains(Launch(tools, index, pathExists).message, tools[index].name)
      && Contains(Launch(tools, index, pathExists).message, tools[index].path)
  {
    if index < |tools| {
      MissingToolMessageMentions(tools[index].name, tools[index].path);
    }
  }

  /** The pending error after a launch with outcome `o`. */
  function PopupAfter(popup: Option<string>, o: LaunchOutcome): Option<string>
  {
    if o.PathMissing? then Some(o.message) else popup
  }

  /** The category selected after the sidebar loop has visited the first
      `count` entries, starting from `current`, when the labels in `clicked`
      were clicked. */
  function SelectedAfter(count: nat, clicked: set<nat>, current: nat): nat
  {
    if count == 0 then current
    else if count - 1 in clicked then count - 1
    else SelectedAfter(count - 1, clicked, current)
  }

  /** The sidebar selects the last clicked entry; without a click the
      selection stays. */
  lemma {:induction false} SelectedAfterSpec(count: nat, clicked: set<nat>, current: nat)
    ensures (exists k :: 0 <= k < count && k in clicked) ==>
      && SelectedAfter(count, clicked, current) < count
      && SelectedAfter(count, clicked, current) in clicked
      && forall k :: SelectedAfter(count, clicked, current) < k < count ==> k !in clicked
    ensures (forall k :: 0 <= k < count ==> k !in clicked) ==>
      SelectedAfter(count, clicked, current) == current
  {
    if count > 0 && count - 1 !in clicked {
      SelectedAfterSpec(count - 1, clicked, current);
    }
  }

  class ToolboxApp {
    const categories: seq<string>
    const tools: seq<Tool>
    var selectedCategory: nat
    var searchQuery: string
    var errorPopup: Option<string>
    const toolsVersion: string

    /** The selection starts at 0 and is only ever set to a sidebar index. */
    ghost predicate Valid()
      reads this
    {
      selectedCategory == 0 || selectedCategory < |categories|
    }

    /** The initial state; `versionFile` is the content of `tools/Version`,
        or `None` when the file is missing or unreadable. */
    constructor (categories: seq<string>, tools: seq<Tool>, versionFile: Option<string>)
      ensures Valid()
      ensures this.categories == categories && this.tools == tools
      ensures selectedCategory == 0 && searchQuery == "" && errorPopup == None
      ensures toolsVersion == match versionFile case Some(text) => text case None => UnknownVersion
    {
      this.categories := categories;
      this.tools := tools;
      selectedCategory := 0;
      searchQuery := "";
      errorPopup := None;
      toolsVersion := match versionFile case Some(text) => text case None => UnknownVersion;
    }

    /** The name of the selected category. */
    function CategoryName(): (name: string)
      reads this
      requires Valid() && |categories| > 0
      ensures name in categories
    {
      categories[selectedCategory]
    }

    /** Launches the tool at `index`: an out-of-range index is ignored, a
        missing executable sets the pending error, and otherwise the path is
        handed to the shell (returned in `launchedPath`) and the state is kept. */
    method LaunchTool(index: nat, pathExists: string -> bool) returns (launchedPath: Option<string>)
      requires Valid()
      modifies this`errorPopup
      ensures Valid()
      ensures errorPopup == PopupAfter(old(errorPopup), Launch(tools, index, pathExists))
      ensures launchedPath == match Launch(tools, index, pathExists) case Opened(path) => Some(path) case _ => None
    {
      if index >= |tools| {
        return None;
      }
      var tool := tools[index];
      if !pathExists(tool.path) {
        errorPopup := Some(MissingToolMessage(tool.name, tool.path));
        return None;
      }
      launchedPath := Some(tool.path);
    }

    /** The error window: while an error is pending it shows the message
        (`shown`); closing it (`closed`) clears the error. */
    method ShowErrorPopup(closed: bool) returns (shown: Option<string>)
      requires Valid()
      modifies this`errorPopup
      ensures Valid()
      ensures shown == old(errorPopup)
      ensures old(errorPopup).None? ==> errorPopup == None
      ensures old(errorPopup).Some? ==> errorPopup == if closed then None else old(errorPopup)
    {
      shown := errorPopup;
      if errorPopup.Some? {
        var open := !closed;
        if !open {
          errorPopup := None;
        }
      }
    }

    /** The search field replaces the query with what the user typed. */
    method EditSearch(query: string)
      requires Valid()
      modifies this`searchQuery
      ensures Valid()
      ensures searchQuery == query
    {
      searchQuery := query;
    }

    /** The sidebar: each clicked entry, visited in order, becomes the selection. */
    method ShowCategories(clicked: set<nat>)
      requires Valid()
      modifies this`selectedCategory
      ensures Valid()
      ensures selectedCategory == SelectedAfter(|categories|, clicked, old(selectedCategory))
    {
      var idx := 0;
      while idx < |categories|
        invariant idx <= |categories|
        invariant Valid()
        invariant selectedCategory == SelectedAfter(idx, clicked, old(selectedCategory))
      {
        if idx in clicked {
          selectedCategory := idx;
        }
        idx := idx + 1;
      }
    }

    /** The central panel: the heading names the selected category and the
        view shows the filtered tools, `perRow` buttons to a row. */
    method ShowToolsUi(perRow: nat) returns (heading: string, view: ToolsView)
      requires Valid() && |categories| > 0 && perRow >= 1
      ensures heading == "分类: " + CategoryName()
      ensures view == ViewOf(FilterTools(tools, CategoryName(), searchQuery), perRow)
    {
      var categoryName := CategoryName();
      heading := "分类: " + categoryName;
      var filtered := FilterTools(tools, categoryName, searchQuery);
      view := ShowTools(filtered, perRow);
    }

    /** One frame: launch the index received from the click queue (if any),
        take the search text, run the sidebar, lay out the central panel and
        show the error window. */
    method Update(received: Option<nat>, query: string, clicked: set<nat>, closed: bool,
                  perRow: nat, pathExists: string -> bool)
      returns (launchedPath: Option<string>, heading: string, view: ToolsView, shown: Option<string>)
      requires Valid() && |categories| > 0 && perRow >= 1
      modifies this`selectedCategory, this`searchQuery, this`errorPopup
      ensures Valid()
      ensures searchQuery == query
      ensures selectedCategory == SelectedAfter(|categories|, clicked, old(selectedCategory))
      ensures heading == "分类: " + CategoryName()
      ensures view == ViewOf(FilterTools(tools, CategoryName(), query), perRow)
      ensures shown == match received
        case None => old(errorPopup)
        case Some(index) => PopupAfter(old(errorPopup), Launch(tools, index, pathExists))
      ensures errorPopup == if shown.Some? && closed then None else shown
      ensures launchedPath == match received
        case None => None
        case Some(index) => match Launch(tools, index, pathExists) case Opened(path) => Some(path) case _ => None
    {
      launchedPath := None;
      if received.Some? {
        launchedPath := LaunchTool(received.value, pathExists);
      }
      EditSearch(query);
      ShowCategories(clicked);
      heading, view := ShowToolsUi(perRow);
      shown := ShowErrorPopup(closed);
    }
  }

  /** Every category the sidebar can leave selected is in range once the list
      is non-empty, so the central panel's lookup of the category name is safe. */
  lemma SelectionStaysInBounds(categories: seq<string>, clicked: set<nat>, current: nat)
    requires |categories| > 0 && (current == 0 || current < |categories|)
    ensures SelectedAfter(|categories|, clicked, current) < |categories|
  {
    SelectedAfterSpec(|categories|, clicked, current);
  }
}
