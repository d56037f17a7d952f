/**
 * The training detail page: defaulted tab flags, the available tabs in
 * their display order, completing a tab (flag it, move to the next one)
 * and completing a chapter (mark it, flag the modules tab once all are done).
 */
module TrainingDetail {
  import opened Wrappers

  datatype Module = Module(id: int, completed: bool)

  /** The part of the loaded formation the handlers read and write. */
  datatype DetailTraining = DetailTraining(
    modules: seq<Module>, ressourceCount: nat, hasQuiz: bool, tabsCompleted: map<string, bool>)

  const TAB_KEYS: seq<string> := ["overview", "modules", "resources", "quiz"]

  /** The loaded flags with every one of the four keys present, missing ones false. */
  function DefaultFlags(raw: map<string, Option<bool>>): (flags: map<string, bool>)
    ensures forall key :: key in flags <==> key in TAB_KEYS
    ensures forall key :: key in flags ==>
      (flags[key] <==> key in raw && raw[key].Some? && raw[key].value)
  {
    map key | key in TAB_KEYS :: key in raw && raw[key].Some? && raw[key].value
  }

  /** The tabs shown, in order: overview, modules, resources, quiz, the last three only with content. */
  function AvailableTabs(t: DetailTraining): (tabs: seq<string>)
    ensures 1 <= |tabs| <= 4 && tabs[0] == "overview"
    ensures "modules" in tabs <==> |t.modules| > 0
    ensures "resources" in tabs <==> t.ressourceCount > 0
    ensures "quiz" in tabs <==> t.hasQuiz
  {
    ["overview"]
    + (if |t.modules| > 0 then ["modules"] else [])
    + (if t.ressourceCount > 0 then ["resources"] else [])
    + (if t.hasQuiz then ["quiz"] else [])
  }

  /** `indexOf`: the first position of `x`, or -1. */
  function IndexOf(s: seq<string>, x: string): (i: int)
    ensures -1 <= i < |s|
    ensures i == -1 <==> x !in s
    ensures i >= 0 ==> s[i] == x && forall j :: 0 <= j < i ==> s[j] != x
  {
    if |s| == 0 then -1
    else if s[0] == x then 0
    else
      var i := IndexOf(s[1..], x);
      if i == -1 then -1 else i + 1
  }

  /** The tab shown after `tabName` is completed from `current`. */
  function NextTab(t: DetailTraining, tabName: string, current: string): string
  {
    var tabs := AvailableTabs(t);
    var i := IndexOf(tabs, tabName);
    if i != -1 && i < |tabs| - 1 then tabs[i + 1] else current
  }

  /**
   * Completing an available tab that is not the last one moves to the
   * available tab right after it; the last tab or a tab that is not
   * available leaves the current tab.
   */
  lemma NextTabMeaning(t: DetailTraining, tabName: string, current: string)
    ensures var tabs := AvailableTabs(t);
      (tabName !in tabs || tabName == tabs[|tabs| - 1]) ==> NextTab(t, tabName, current) == current
    ensures var tabs := AvailableTabs(t);
      forall k :: 0 <= k < |tabs| - 1 && tabs[k] == tabName ==> NextTab(t, tabName, current) == tabs[k + 1]
  {
    var tabs := AvailableTabs(t);
    DistinctTabs(t);
  }

  lemma DistinctTabs(t: DetailTraining)
    ensures var tabs := AvailableTabs(t);
      forall j, k :: 0 <= j < k < |tabs| ==> tabs[j] != tabs[k]
  {
  }

  /** With every kind of content the order is overview, modules, resources, quiz. */
  lemma FullTabOrder(t: DetailTraining)
    requires |t.modules| > 0 && t.ressourceCount > 0 && t.hasQuiz
    ensures AvailableTabs(t) == TAB_KEYS
    ensures NextTab(t, "overview", "overview") == "modules" && NextTab(t, "modules", "modules") == "resources"
    ensures NextTab(t, "resources", "resources") == "quiz" && NextTab(t, "quiz", "quiz") == "quiz"
  {
    var tabs := AvailableTabs(t);
    assert tabs == TAB_KEYS;
    NextTabMeaning(t, "overview", "overview");
    assert tabs[0] == "overview";
    NextTabMeaning(t, "modules", "modules");
    assert tabs[1] == "modules";
    NextTabMeaning(t, "resources", "resources");
    assert tabs[2] == "resources";
    NextTabMeaning(t, "quiz", "quiz");
    assert tabs[3] == "quiz";
  }

  /** The modules with the one of id `moduleId` completed. */
  function CompleteModule(modules: seq<Module>, moduleId: int): (r: seq<Module>)
    ensures |r| == |modules|
    ensures forall k :: 0 <= k < |modules| ==>
      r[k].id == modules[k].id && (r[k].completed <==> modules[k].completed || modules[k].id == moduleId)
  {
    seq(|modules|, k requires 0 <= k < |modules| =>
      if modules[k].id == moduleId then modules[k].(completed := true) else modules[k])
  }

  predicate AllDone(modules: seq<Module>)
  {
    forall k :: 0 <= k < |modules| ==> modules[k].completed
  }

  /** The page state: the formation and the tab shown. */
  class DetailPage {
    var training: DetailTraining
    var tab: string

    constructor (raw: DetailTraining, rawFlags: map<string, Option<bool>>)
      ensures training == raw.(tabsCompleted := DefaultFlags(rawFlags)) && tab == "overview"
    {
      training := raw.(tabsCompleted := DefaultFlags(rawFlags));
      tab := "overview";
    }

    /** `handleTabCompletion`: flag `tabName`, then move to the next available tab. */
    method CompleteTab(tabName: string)
      modifies this
      ensures training == old(training).(tabsCompleted := old(training).tabsCompleted[tabName := true])
      ensures tab == NextTab(old(training), tabName, old(tab))
    {
      var prev := training;
      training := prev.(tabsCompleted := prev.tabsCompleted[tabName := true]);
      var tabs := AvailableTabs(prev);
      var idx := IndexOf(tabs, tabName);
      if idx != -1 && idx < |tabs| - 1 {
        tab := tabs[idx + 1];
      }
    }

    /** `handleChapterCompletion`. */
    method CompleteChapter(moduleId: int)
      modifies this
      ensures training.modules == CompleteModule(old(training).modules, moduleId)
      ensures training.ressourceCount == old(training).ressourceCount && training.hasQuiz == old(training).hasQuiz
      ensures training.tabsCompleted == old(training).tabsCompleted[
        "modules" := AllDone(training.modules) || ("modules" in old(training).tabsCompleted && old(training).tabsCompleted["modules"])]
      ensures !AllDone(training.modules) ==> tab == old(tab)
      ensures AllDone(training.modules) ==>
        tab == (if training.ressourceCount > 0 then "resources" else if training.hasQuiz then "quiz" else "overview")
    {
      var prev := training;
      var modules := CompleteModule(prev.modules, moduleId);
      var allDone := AllDone(modules);
      var keep := "modules" in prev.tabsCompleted && prev.tabsCompleted["modules"];
      training := prev.(modules := modules, tabsCompleted := prev.tabsCompleted["modules" := if allDone then true else keep]);
      if allDone {
        if prev.ressourceCount > 0 {
          tab := "resources";
        } else if prev.hasQuiz {
          tab := "quiz";
        } else {
          tab := "overview";
        }
      }
    }
  }

  /** Completing a chapter marks only the matching modules; the others keep their state. */
  lemma CompleteModuleLocal(modules: seq<Module>, moduleId: int)
    ensures forall k :: 0 <= k < |modules| && modules[k].id != moduleId ==> CompleteModule(modules, moduleId)[k] == modules[k]
    ensures CompleteModule(CompleteModule(modules, moduleId), moduleId) == CompleteModule(modules, moduleId)
  {
  }

  /** Completing the last pending chapter finishes the modules. */
  lemma LastChapterCompletesModules(modules: seq<Module>, moduleId: int)
    requires forall k :: 0 <= k < |modules| && !modules[k].completed ==> modules[k].id == moduleId
    ensures AllDone(CompleteModule(modules, moduleId))
  {
  }
}
