/**
 * The voice desktop assistant of voice_os.py, without the microphone, the
 * speech engine and the Windows calls: an utterance is classified into a
 * command by an ordered chain of substring and prefix tests, with the
 * arguments the source extracts (text to type, keys to press, what to open,
 * which number to click, which window to close). Beside it: the number
 * extraction used after listing Explorer items, the numbered overlay and its
 * number-to-position mapping, and the window filter used to close windows by
 * name.
 */
module VoiceOs {
  import opened Basics
  import opened Text

  // ---------------------------------------------------------------------------
  // Commands

  datatype Command =
    | Help
    | StopAssistant
    | AskWhatToType
    | TypeText(text: string)
    | PressKey(key: string)
    | Hotkey(keys: seq<string>)
    | AskAppName
    | OpenApp(name: string)
    | OpenExplorer
    | OpenDocuments
    | OpenDownloads
    | OpenPath(path: string)
    | SearchStart(name: string)
    | EnumerateFiles
    | ClickNumber(n: nat)
    | NoNumberToClick
    | MinimizeActive
    | MaximizeActive
    | RestoreActive
    | CloseActive
    | AskCloseName
    | CloseByName(name: string)
    | Refresh
    | Back
    | Forward
    | NotUnderstood

  /** Number of tests in the chain; the rule index of a command that matched none. */
  const RuleCount := 15

  /**
   * The tests of handle_command by position in the chain, each on its own.
   * The command for an utterance is decided by the first one that holds.
   */
  predicate Fires(k: nat, text: string)
  {
    if k == 0 then Contains(text, "help")
    else if k == 1 then StopRequested(text)
    else if k == 2 then StartsWith(text, "type ")
    else if k == 3 then StartsWith(text, "press ")
    else if k == 4 then OpenAppRequested(text)
    else if k == 5 then StartsWith(text, "open ")
    else if k == 6 then EnumerateRequested(text)
    else if k == 7 then StartsWith(text, "click") && Contains(text, "number")
    else if k == 8 then Contains(text, "minimize") || Contains(text, "minimise")
    else if k == 9 then Contains(text, "maximize")
    else if k == 10 then Contains(text, "restore") || Contains(text, "unmaximize") || Contains(text, "restore window")
    else if k == 11 then Contains(text, "close window") || StartsWith(text, "close ")
    else if k == 12 then Contains(text, "refresh")
    else if k == 13 then text == "back"
    else if k == 14 then text == "forward"
    else false
  }

  predicate StopRequested(text: string)
  {
    Contains(text, "stop assistant") || Contains(text, "exit assistant") || Contains(text, "quit assistant")
  }

  /** startswith('open app') or startswith('open ') and 'app' in text and 'open app' in text */
  predicate OpenAppRequested(text: string)
  {
    StartsWith(text, "open app") ||
    (StartsWith(text, "open ") && Contains(text, "app") && Contains(text, "open app"))
  }

  predicate EnumerateRequested(text: string)
  {
    Contains(text, "enumerate files") || Contains(text, "list files") ||
    Contains(text, "enumerate") || Contains(text, "show files")
  }

  /** The position in the chain of the test that yields `c`; RuleCount for NotUnderstood. */
  function Rule(c: Command): (k: nat)
    ensures k <= RuleCount
  {
    match c
    case Help => 0
    case StopAssistant => 1
    case AskWhatToType => 2
    case TypeText(_) => 2
    case PressKey(_) => 3
    case Hotkey(_) => 3
    case AskAppName => 4
    case OpenApp(_) => 4
    case OpenExplorer => 5
    case OpenDocuments => 5
    case OpenDownloads => 5
    case OpenPath(_) => 5
    case SearchStart(_) => 5
    case EnumerateFiles => 6
    case ClickNumber(_) => 7
    case NoNumberToClick => 7
    case MinimizeActive => 8
    case MaximizeActive => 9
    case RestoreActive => 10
    case CloseActive => 11
    case AskCloseName => 11
    case CloseByName(_) => 11
    case Refresh => 12
    case Back => 13
    case Forward => 14
    case NotUnderstood => RuleCount
  }

  // ---------------------------------------------------------------------------
  // Arguments of the branches

  /**
   * The key_alias table of the press branch, written as its two halves: the
   * named keys and the spoken function keys.
   */
  const KeyAlias: map<string, string> := NamedKeyAlias + FunctionKeyAlias

  const NamedKeyAlias: map<string, string> := map[
    "enter" := "enter", "return" := "enter", "escape" := "esc", "esc" := "esc",
    "space" := "space", "spacebar" := "space", "tab" := "tab", "backspace" := "backspace",
    "delete" := "delete", "up" := "up", "down" := "down", "left" := "left", "right" := "right",
    "windows" := "win", "window" := "win", "win" := "win", "control" := "ctrl", "ctrl" := "ctrl",
    "alt" := "alt", "shift" := "shift"]

  const FunctionKeyAlias: map<string, string> := map[
    "f one" := "f1", "f two" := "f2", "f three" := "f3", "f four" := "f4", "f five" := "f5",
    "f six" := "f6", "f seven" := "f7", "f eight" := "f8", "f nine" := "f9", "f ten" := "f10",
    "f eleven" := "f11", "f twelve" := "f12"]

  /** key_alias.get(word, word) */
  function Alias(word: string): (key: string)
    ensures word !in KeyAlias ==> key == word
  {
    if word in KeyAlias then KeyAlias[word] else word
  }

  /** The press loop: map every spoken word through the alias table, keeping order and count. */
  method MapKeys(words: seq<string>) returns (keys: seq<string>)
    ensures |keys| == |words|
    ensures forall i :: 0 <= i < |words| ==> keys[i] == Alias(words[i])
  {
    keys := [];
    for i := 0 to |words|
      invariant |keys| == i
      invariant forall j :: 0 <= j < i ==> keys[j] == Alias(words[j])
    {
      keys := keys + [Alias(words[i])];
    }
  }

  /** The keys the press branch sends for the words it heard. */
  function Aliases(words: seq<string>): (keys: seq<string>)
  {
    seq(|words|, i requires 0 <= i < |words| => Alias(words[i]))
  }

  /** One key is pressed, any other number of keys (none included) goes to hotkey. */
  function KeysCommand(keys: seq<string>): (c: Command)
    ensures |keys| == 1 <==> c.PressKey?
    ensures c.PressKey? ==> c.key == keys[0]
    ensures c.Hotkey? ==> c.keys == keys
  {
    if |keys| == 1 then PressKey(keys[0]) else Hotkey(keys)
  }

  /** The type branch: the text after the first "type ", stripped. */
  function TypeCommand(text: string): (c: Command)
    ensures c == AskWhatToType || c.TypeText?
  {
    var t := Strip(RemoveFirst(text, "type "));
    if t == [] then AskWhatToType else TypeText(t)
  }

  /** The press branch: the words after the first "press ", through the alias table. */
  function PressCommand(text: string): (c: Command)
    ensures c.PressKey? || c.Hotkey?
  {
    KeysCommand(Aliases(Split(Strip(RemoveFirst(text, "press ")))))
  }

  /** The open-app branch: every "open app", then every "open" removed, stripped. */
  function OpenAppCommand(text: string): (c: Command)
    ensures c == AskAppName || c.OpenApp?
  {
    var t := Strip(RemoveAll(RemoveAll(text, "open app"), "open"));
    if t == [] then AskAppName else OpenApp(t)
  }

  /** The open branch for an already extracted target. */
  function OpenTargetCommand(target: string, existing: set<string>): (c: Command)
    ensures c == OpenExplorer <==> target in {"this pc", "file explorer", "explorer"}
    ensures c == OpenDocuments <==> target in {"documents", "my documents"}
    ensures c == OpenDownloads <==> target in {"downloads", "download"}
    ensures c.OpenPath? ==> c.path == target && target in existing
    ensures c.SearchStart? ==> c.name == target && target !in existing
    ensures c.OpenPath? || c.SearchStart? || c == OpenExplorer || c == OpenDocuments || c == OpenDownloads
  {
    if target in {"this pc", "file explorer", "explorer"} then OpenExplorer
    else if target in {"documents", "my documents"} then OpenDocuments
    else if target in {"downloads", "download"} then OpenDownloads
    else if target in existing then OpenPath(target)
    else SearchStart(target)
  }

  /** The open branch: the text after the first "open", stripped. */
  function OpenCommand(text: string, existing: set<string>): (c: Command)
    ensures c.OpenPath? || c.SearchStart? || c == OpenExplorer || c == OpenDocuments || c == OpenDownloads
  {
    OpenTargetCommand(Strip(RemoveFirst(text, "open")), existing)
  }

  /** The click-number branch: the first all-digit word is the number. */
  function ClickCommand(text: string): (c: Command)
    ensures c.ClickNumber? || c == NoNumberToClick
  {
    var n := FirstDigitFrom(Split(text), 0);
    if n.Some? then ClickNumber(n.value) else NoNumberToClick
  }

  /** The close branch: exactly "close window", else every "close app", then every "close" removed, stripped. */
  function CloseCommand(text: string): (c: Command)
    ensures c == CloseActive || c == AskCloseName || c.CloseByName?
    ensures c == CloseActive <==> text == "close window"
  {
    if text == "close window" then CloseActive
    else
      var t := Strip(RemoveAll(RemoveAll(text, "close app"), "close"));
      if t == [] then AskCloseName else CloseByName(t)
  }

  // ---------------------------------------------------------------------------
  // Numbers heard

  /** The number words of _listen_for_number, in the dictionary's order: word k means k + 1. */
  const NumberWords: seq<string> := ["one", "two", "three", "four", "five", "six", "seven", "eight",
    "nine", "ten", "eleven", "twelve", "thirteen", "fourteen", "fifteen", "sixteen", "seventeen",
    "eighteen", "nineteen", "twenty"]

  /** int() of the first all-digit token at or after index `i`. */
  function FirstDigitFrom(tokens: seq<string>, i: nat): (n: Option<nat>)
    requires i <= |tokens|
    decreases |tokens| - i
  {
    if i == |tokens| then None
    else if IsDigits(tokens[i]) then Some(DigitsValue(tokens[i]))
    else FirstDigitFrom(tokens, i + 1)
  }

  /** Token `i` is all digits and no earlier token is. */
  predicate FirstDigitAt(tokens: seq<string>, i: int)
  {
    0 <= i < |tokens| && IsDigits(tokens[i]) && forall j :: 0 <= j < i ==> !IsDigits(tokens[j])
  }

  /** The first all-digit token is the one taken; without one there is no number. */
  lemma {:induction false} FirstDigitSpec(tokens: seq<string>, from: nat)
    requires from <= |tokens|
    ensures FirstDigitFrom(tokens, from).None? <==> forall j :: from <= j < |tokens| ==> !IsDigits(tokens[j])
    ensures forall i :: (from <= i < |tokens| && IsDigits(tokens[i]) &&
      (forall j :: from <= j < i ==> !IsDigits(tokens[j]))) ==>
      FirstDigitFrom(tokens, from) == Some(DigitsValue(tokens[i]))
    decreases |tokens| - from
  {
    if from < |tokens| {
      FirstDigitSpec(tokens, from + 1);
    }
  }

  /** The value of the first word of `words`, from position `k` on, that occurs in `txt`: word k means k + 1. */
  function FirstWordFrom(txt: string, words: seq<string>, k: nat): (n: Option<nat>)
    requires k <= |words|
    ensures n.Some? ==> k + 1 <= n.value <= |words|
    decreases |words| - k
  {
    if k == |words| then None
    else if Contains(txt, words[k]) then Some(k + 1)
    else FirstWordFrom(txt, words, k + 1)
  }

  /**
   * The per-utterance extraction of _listen_for_number, as written. An
   * all-digit token wins; without one the number comes from the word list
   * and is between 1 and 20.
   */
  function NumberIn(txt: string): (n: Option<nat>)
    ensures var tokens := Split(txt);
      forall i :: FirstDigitAt(tokens, i) ==> n == Some(DigitsValue(tokens[i]))
    ensures (forall j :: 0 <= j < |Split(txt)| ==> !IsDigits(Split(txt)[j])) ==>
      n == FirstWordFrom(txt, NumberWords, 0) && (n.Some? ==> 1 <= n.value <= 20)
  {
    FirstDigitSpec(Split(txt), 0);
    var d := FirstDigitFrom(Split(txt), 0);
    if d.Some? then d else FirstWordFrom(txt, NumberWords, 0)
  }

  /**
   * The word scan takes the first word of the list that occurs in the
   * utterance, and finds nothing only when none occurs.
   */
  lemma {:induction false} NumberWordSpec(txt: string, words: seq<string>, k: nat)
    requires k <= |words|
    ensures var n := FirstWordFrom(txt, words, k);
      (n.Some? ==>
        (Contains(txt, words[n.value - 1]) &&
         forall j :: k <= j < n.value - 1 ==> !Contains(txt, words[j]))) &&
      (n.None? <==> forall j :: k <= j < |words| ==> !Contains(txt, words[j]))
    decreases |words| - k
  {
    if k < |words| {
      NumberWordSpec(txt, words, k + 1);
    }
  }

  /** _listen_for_number for one utterance: digits first, then the word list, returning early. */
  method ExtractNumber(txt: string) returns (n: Option<nat>)
    ensures n == NumberIn(txt)
  {
    var tokens := Split(txt);
    var i := 0;
    while i < |tokens|
      invariant 0 <= i <= |tokens|
      invariant FirstDigitFrom(tokens, i) == FirstDigitFrom(tokens, 0)
    {
      if IsDigits(tokens[i]) {
        return Some(DigitsValue(tokens[i]));
      }
      i := i + 1;
    }
    var k := 0;
    while k < |NumberWords|
      invariant 0 <= k <= |NumberWords|
      invariant FirstWordFrom(txt, NumberWords, k) == FirstWordFrom(txt, NumberWords, 0)
    {
      if Contains(txt, NumberWords[k]) {
        return Some(k + 1);
      }
      k := k + 1;
    }
    return None;
  }

  /** As written, "seventeen" is heard as 7: "seven" occurs in it and comes first in the word list. */
  lemma SeventeenHeardAsSeven(txt: string)
    requires txt == "seventeen"
    ensures NumberIn(txt) == Some(7)
  {
    SeventeenHasNoDigits(txt);
    SeventeenContains(txt);
    SevenWins(txt);
  }

  /** Without digits, an utterance that holds "seven" but none of one to six is heard as 7. */
  lemma SevenWins(txt: string)
    requires FirstDigitFrom(Split(txt), 0) == None
    requires !Contains(txt, "one") && !Contains(txt, "two") && !Contains(txt, "three")
    requires !Contains(txt, "four") && !Contains(txt, "five") && !Contains(txt, "six")
    requires Contains(txt, "seven")
    ensures NumberIn(txt) == Some(7)
  {
    assert NumberWords[..6] == ["one", "two", "three", "four", "five", "six"];
    FirstWordIs(txt, NumberWords, 6);
  }

  lemma SeventeenHasNoDigits(txt: string)
    requires txt == "seventeen"
    ensures FirstDigitFrom(Split(txt), 0) == None
  {
    SingleWord(txt);
  }

  /** Of the first seven number words only "seven" occurs in "seventeen". */
  lemma SeventeenContains(txt: string)
    requires txt == "seventeen"
    ensures !Contains(txt, "one") && !Contains(txt, "two") && !Contains(txt, "three")
    ensures !Contains(txt, "four") && !Contains(txt, "five") && !Contains(txt, "six")
    ensures Contains(txt, "seven")
  {
    NotContainsChar(txt, "one", 0);
    NotContainsChar(txt, "two", 1);
    NotContainsChar(txt, "three", 1);
    NotContainsChar(txt, "four", 1);
    NotContainsChar(txt, "five", 0);
    NotContainsChar(txt, "six", 1);
    assert OccursAt(txt, "seven", 0);
  }

  /** The scan yields word `k` when it occurs and no earlier word does. */
  lemma FirstWordIs(txt: string, words: seq<string>, k: nat)
    requires k < |words| && Contains(txt, words[k])
    requires forall w :: w in words[..k] ==> !Contains(txt, w)
    ensures FirstWordFrom(txt, words, 0) == Some(k + 1)
  {
    NumberWordSpec(txt, words, 0);
    forall j | 0 <= j < k
      ensures !Contains(txt, words[j])
    {
      assert words[j] == words[..k][j];
    }
  }

  /** The word scan with the evidently intended test: the word must be one of the utterance's tokens. */
  function FirstTokenWordFrom(tokens: seq<string>, words: seq<string>, k: nat): (n: Option<nat>)
    requires k <= |words|
    ensures n.Some? ==> k + 1 <= n.value <= |words| && words[n.value - 1] in tokens
    ensures n.None? <==> forall j :: k <= j < |words| ==> words[j] !in tokens
    decreases |words| - k
  {
    if k == |words| then None
    else if words[k] in tokens then Some(k + 1)
    else FirstTokenWordFrom(tokens, words, k + 1)
  }

  /** _listen_for_number with whole-word matching of the number words. */
  function NumberInWords(txt: string): (n: Option<nat>)
  {
    var tokens := Split(txt);
    var d := FirstDigitFrom(tokens, 0);
    if d.Some? then d else FirstTokenWordFrom(tokens, NumberWords, 0)
  }

  /** A word said alone is found at its own place in a list whose earlier entries differ from it. */
  lemma {:induction false} TokenWordFound(words: seq<string>, k: nat, from: nat)
    requires from <= k < |words|
    requires forall j :: from <= j < k ==> words[j] != words[k]
    ensures FirstTokenWordFrom([words[k]], words, from) == Some(k + 1)
    decreases k - from
  {
    if from < k {
      TokenWordFound(words, k, from + 1);
    }
  }

  /** The twenty number words are single tokens that do not start with a digit. */
  lemma NumberWordsAreWords()
    ensures forall k :: 0 <= k < |NumberWords| ==> IsToken(NumberWords[k]) && !IsDigit(NumberWords[k][0])
  {
    forall k | 0 <= k < |NumberWords|
      ensures IsToken(NumberWords[k]) && !IsDigit(NumberWords[k][0])
    {
      LowercaseWord(NumberWords[k]);
    }
  }

  /** A non-empty run of lowercase letters is a token that does not start with a digit. */
  lemma LowercaseWord(w: string)
    requires w != [] && forall i :: 0 <= i < |w| ==> 'a' <= w[i] <= 'z'
    ensures IsToken(w) && !IsDigit(w[0])
  {
  }

  /** The twenty number words are distinct. */
  lemma NumberWordsDistinct()
    ensures forall j, k :: 0 <= j < k < |NumberWords| ==> NumberWords[j] != NumberWords[k]
  {
  }

  /** With whole-word matching every number word said alone is read as its own value. */
  lemma NumberWordsReadBack(k: nat)
    requires k < |NumberWords|
    ensures NumberInWords(NumberWords[k]) == Some(k + 1)
  {
    NumberWordsAreWords();
    NumberWordsDistinct();
    WordReadBack(NumberWords, k);
  }

  /** A word said alone splits into itself and holds no all-digit token. */
  lemma SingleWord(w: string)
    requires IsToken(w) && !IsDigit(w[0])
    ensures Split(w) == [w]
    ensures FirstDigitFrom(Split(w), 0) == None
  {
    SplitToken(w, []);
    assert w + [] == w;
  }

  /** A word said alone, distinct from the words listed before it, is read as its own position. */
  lemma WordReadBack(words: seq<string>, k: nat)
    requires k < |words| && IsToken(words[k]) && !IsDigit(words[k][0])
    requires forall j :: 0 <= j < k ==> words[j] != words[k]
    ensures FirstDigitFrom(Split(words[k]), 0) == None
    ensures FirstTokenWordFrom(Split(words[k]), words, 0) == Some(k + 1)
  {
    SingleWord(words[k]);
    TokenWordFound(words, k, 0);
  }

  // ---------------------------------------------------------------------------
  // The classifier

  /**
   * handle_command as a classifier; `existing` stands for os.path.exists.
   * OpenApp and SearchStart both type the name into the start menu search.
   * handle_command returns False exactly for NotUnderstood.
   */
  function Classify(text: string, existing: set<string>): (c: Command)
    ensures c == Help <==> Contains(text, "help")
    ensures c == StopAssistant <==> !Contains(text, "help") && StopRequested(text)
  {
    if Contains(text, "help") then Help
    else if StopRequested(text) then StopAssistant
    else if StartsWith(text, "type ") then TypeCommand(text)
    else if StartsWith(text, "press ") then PressCommand(text)
    else if OpenAppRequested(text) then OpenAppCommand(text)
    else if StartsWith(text, "open ") then OpenCommand(text, existing)
    else if EnumerateRequested(text) then EnumerateFiles
    else if StartsWith(text, "click") && Contains(text, "number") then ClickCommand(text)
    else if Contains(text, "minimize") || Contains(text, "minimise") then MinimizeActive
    else ClassifyWindowTests(text)
  }

  /**
   * The tests that end handle_command's chain: maximize, restore and close,
   * then the browser tests. The command comes from the first of them that
   * holds.
   */
  function ClassifyWindowTests(text: string): Command
  {
    if Contains(text, "maximize") then MaximizeActive
    else if Contains(text, "restore") || Contains(text, "unmaximize") || Contains(text, "restore window") then RestoreActive
    else if Contains(text, "close window") || StartsWith(text, "close ") then CloseCommand(text)
    else ClassifyBrowserTests(text)
  }

  /** The refresh, back and forward tests, then the fallback. */
  function ClassifyBrowserTests(text: string): Command
  {
    if Contains(text, "refresh") then Refresh
    else if text == "back" then Back
    else if text == "forward" then Forward
    else NotUnderstood
  }

  /** The order property of the chain for the command of `text`. */
  predicate InOrder(text: string, c: Command)
  {
    var k := Rule(c);
    (k < RuleCount ==> Fires(k, text)) && NoneBefore(k, text)
  }

  /**
   * The chain is tried in order: the command comes from a test that holds and
   * no earlier test holds; NotUnderstood comes only when no test holds.
   */
  lemma ClassifyFollowsOrder(text: string, existing: set<string>)
    ensures var k := Rule(Classify(text, existing));
      (k < RuleCount ==> Fires(k, text)) && NoneBefore(k, text)
  {
    if Fires(0, text) || Fires(1, text) || Fires(2, text) {
      OrderFromHelp(text, existing);
    } else if Fires(3, text) || Fires(4, text) || Fires(5, text) {
      OrderFromPress(text, existing);
    } else if Fires(6, text) || Fires(7, text) || Fires(8, text) {
      OrderFromEnumerate(text, existing);
    } else {
      OrderFromMaximize(text, existing);
    }
    assert InOrder(text, Classify(text, existing));
  }

  /** The help, stop and type tests. */
  lemma OrderFromHelp(text: string, existing: set<string>)
    requires Fires(0, text) || Fires(1, text) || Fires(2, text)
    ensures InOrder(text, Classify(text, existing))
  {
    var c := Classify(text, existing);
    if Fires(0, text) {
      assert c == Help;
    } else if Fires(1, text) {
      assert c == StopAssistant;
    } else {
      assert c == TypeCommand(text);
      RuleOf(c, 2);
    }
  }

  /** The press, open-app and open tests. */
  lemma OrderFromPress(text: string, existing: set<string>)
    requires NoneBefore(3, text)
    requires Fires(3, text) || Fires(4, text) || Fires(5, text)
    ensures InOrder(text, Classify(text, existing))
  {
    assert !Fires(0, text) && !Fires(1, text) && !Fires(2, text);
    var c := Classify(text, existing);
    if Fires(3, text) {
      assert c == PressCommand(text);
      RuleOf(c, 3);
    } else if Fires(4, text) {
      assert c == OpenAppCommand(text);
      RuleOf(c, 4);
    } else {
      assert c == OpenCommand(text, existing);
      RuleOf(c, 5);
    }
  }

  /** The enumerate, click-number and minimize tests. */
  lemma OrderFromEnumerate(text: string, existing: set<string>)
    requires NoneBefore(6, text)
    requires Fires(6, text) || Fires(7, text) || Fires(8, text)
    ensures InOrder(text, Classify(text, existing))
  {
    assert !Fires(0, text) && !Fires(1, text) && !Fires(2, text);
    assert !Fires(3, text) && !Fires(4, text) && !Fires(5, text);
    var c := Classify(text, existing);
    if Fires(6, text) {
      assert c == EnumerateFiles;
    } else if Fires(7, text) {
      assert c == ClickCommand(text);
      RuleOf(c, 7);
    } else {
      assert c == MinimizeActive;
    }
  }

  /** The window and browser tests, and the fallback. */
  lemma OrderFromMaximize(text: string, existing: set<string>)
    requires NoneBefore(9, text)
    ensures InOrder(text, Classify(text, existing))
  {
    ReachesWindowTests(text, existing);
    WindowTestsInOrder(text);
  }

  /** When none of the first nine tests holds, the window tests decide. */
  lemma ReachesWindowTests(text: string, existing: set<string>)
    requires NoneBefore(9, text)
    ensures Classify(text, existing) == ClassifyWindowTests(text)
  {
    assert !Fires(0, text) && !Fires(1, text) && !Fires(2, text);
    assert !Fires(3, text) && !Fires(4, text) && !Fires(5, text);
    assert !Fires(6, text) && !Fires(7, text) && !Fires(8, text);
  }

  /** The maximize, restore and close tests, in order. */
  lemma WindowTestsInOrder(text: string)
    requires NoneBefore(9, text)
    ensures InOrder(text, ClassifyWindowTests(text))
  {
    if Fires(9, text) {
      assert ClassifyWindowTests(text) == MaximizeActive;
      return;
    }
    NoneBeforeNext(9, text);
    if Fires(10, text) {
      assert ClassifyWindowTests(text) == RestoreActive;
      return;
    }
    NoneBeforeNext(10, text);
    CloseTestInOrder(text);
  }

  /** The close test, once the maximize and restore tests have failed. */
  lemma CloseTestInOrder(text: string)
    requires NoneBefore(11, text)
    ensures InOrder(text, ClassifyWindowTests(text))
  {
    assert !Fires(9, text) && !Fires(10, text);
    if Fires(11, text) {
      WindowTestsClose(text);
      RuleOf(CloseCommand(text), 11);
      return;
    }
    NoneBeforeNext(11, text);
    assert ClassifyWindowTests(text) == ClassifyBrowserTests(text);
    BrowserTestsInOrder(text);
  }

  lemma WindowTestsClose(text: string)
    requires !Contains(text, "maximize")
    requires !(Contains(text, "restore") || Contains(text, "unmaximize") || Contains(text, "restore window"))
    requires Contains(text, "close window") || StartsWith(text, "close ")
    ensures ClassifyWindowTests(text) == CloseCommand(text)
  {
  }

  /** The refresh, back and forward tests, in order, and the fallback. */
  lemma BrowserTestsInOrder(text: string)
    requires NoneBefore(12, text)
    ensures InOrder(text, ClassifyBrowserTests(text))
  {
    if Fires(12, text) {
      assert ClassifyBrowserTests(text) == Refresh;
      return;
    }
    NoneBeforeNext(12, text);
    if Fires(13, text) {
      assert ClassifyBrowserTests(text) == Back;
      return;
    }
    NoneBeforeNext(13, text);
    if Fires(14, text) {
      assert ClassifyBrowserTests(text) == Forward;
      return;
    }
    NoneBeforeNext(14, text);
    assert ClassifyBrowserTests(text) == NotUnderstood;
  }

  /** The rule index of each kind of command a branch builds. */
  lemma RuleOf(c: Command, k: nat)
    requires k == 2 ==> c == AskWhatToType || c.TypeText?
    requires k == 3 ==> c.PressKey? || c.Hotkey?
    requires k == 4 ==> c == AskAppName || c.OpenApp?
    requires k == 5 ==> c.OpenPath? || c.SearchStart? || c == OpenExplorer || c == OpenDocuments || c == OpenDownloads
    requires k == 7 ==> c.ClickNumber? || c == NoNumberToClick
    requires k == 11 ==> c == CloseActive || c == AskCloseName || c.CloseByName?
    requires k in {2, 3, 4, 5, 7, 11}
    ensures Rule(c) == k
  {
  }

  /** None of the first `k` tests holds. */
  predicate NoneBefore(k: nat, text: string)
  {
    forall j :: 0 <= j < k ==> !Fires(j, text)
  }

  lemma NoneBeforeNext(k: nat, text: string)
    requires NoneBefore(k, text) && !Fires(k, text)
    ensures NoneBefore(k + 1, text)
  {
  }

  /** The position of the first test, from `k` on, that holds; RuleCount when none does. */
  function FirstFiring(text: string, k: nat): (r: nat)
    requires k <= RuleCount
    ensures k <= r <= RuleCount
    decreases RuleCount - k
  {
    if k == RuleCount then RuleCount
    else if Fires(k, text) then k
    else FirstFiring(text, k + 1)
  }

  lemma {:induction false} FirstFiringSpec(text: string, k: nat)
    requires k <= RuleCount && NoneBefore(k, text)
    ensures var r := FirstFiring(text, k);
      (r < RuleCount ==> Fires(r, text)) && NoneBefore(r, text)
    decreases RuleCount - k
  {
    if k < RuleCount && !Fires(k, text) {
      FirstFiringSpec(text, k + 1);
    }
  }

  /** Any utterance containing "help" is the help command. */
  lemma HelpFirst(text: string, existing: set<string>)
    requires Contains(text, "help")
    ensures Classify(text, existing) == Help
  {
  }

  // ---------------------------------------------------------------------------
  // What the branches extract

  /** An utterance starting with "type " that no earlier test takes goes to the type branch. */
  lemma TypeSelected(text: string, existing: set<string>)
    requires NoneBefore(2, text) && StartsWith(text, "type ")
    ensures Classify(text, existing) == TypeCommand(text)
  {
    assert !Fires(0, text) && !Fires(1, text);
  }

  /** An utterance starting with "open " that no earlier test takes goes to the open branch. */
  lemma OpenSelected(text: string, existing: set<string>)
    requires NoneBefore(5, text) && StartsWith(text, "open ")
    ensures Classify(text, existing) == OpenCommand(text, existing)
  {
    assert !Fires(0, text) && !Fires(1, text) && !Fires(2, text);
    assert !Fires(3, text) && !Fires(4, text);
  }

  /** An utterance starting with "click" and holding "number" that no earlier test takes goes to the click branch. */
  lemma ClickSelected(text: string, existing: set<string>)
    requires NoneBefore(7, text) && StartsWith(text, "click") && Contains(text, "number")
    ensures Classify(text, existing) == ClickCommand(text)
  {
    assert !Fires(0, text) && !Fires(1, text) && !Fires(2, text);
    assert !Fires(3, text) && !Fires(4, text) && !Fires(5, text) && !Fires(6, text);
  }

  /** "type " followed by anything types that text, stripped, or asks for it when nothing is left. */
  lemma TypeRoundTrip(s: string, existing: set<string>)
    requires NoneBefore(2, "type " + s)
    ensures Classify("type " + s, existing) ==
      (if Strip(s) == [] then AskWhatToType else TypeText(Strip(s)))
  {
    var t := "type " + s;
    assert StartsWith(t, "type ") by { assert t[..5] == "type "; }
    TypeSelected(t, existing);
    RemoveFirstPrefix("type ", s);
  }

  /**
   * "press " followed by spoken words presses the aliased keys in the order
   * and number they were said: one key by itself, otherwise as a hotkey.
   */
  lemma PressRoundTrip(ws: seq<string>, existing: set<string>)
    requires forall i :: 0 <= i < |ws| ==> IsToken(ws[i])
    requires NoneBefore(2, "press " + Join(ws))
    ensures Classify("press " + Join(ws), existing) == KeysCommand(Aliases(ws))
  {
    var t := "press " + Join(ws);
    assert StartsWith(t, "press ") by { assert t[..6] == "press "; }
    PressSelected(t, existing);
    PressWords(ws);
  }

  /** An utterance starting with "press " that no earlier test takes goes to the press branch. */
  lemma PressSelected(text: string, existing: set<string>)
    requires NoneBefore(2, text) && StartsWith(text, "press ")
    ensures Classify(text, existing) == PressCommand(text)
  {
    assert !Fires(0, text) && !Fires(1, text);
    assert text[0] != "type "[0];
    assert !StartsWith(text, "type ");
  }

  lemma PressWords(ws: seq<string>)
    requires forall i :: 0 <= i < |ws| ==> IsToken(ws[i])
    ensures PressCommand("press " + Join(ws)) == KeysCommand(Aliases(ws))
  {
    RemoveFirstPrefix("press ", Join(ws));
    JoinEnds(ws);
    StripUnpadded(Join(ws));
    SplitJoin(ws);
  }

  /** "open " followed by a target opens what the stripped target names. */
  lemma OpenTarget(name: string, existing: set<string>)
    requires NoneBefore(5, "open " + name)
    ensures Classify("open " + name, existing) == OpenTargetCommand(Strip(name), existing)
  {
    var t := "open " + name;
    assert StartsWith(t, "open ") by { assert t[..5] == "open "; }
    OpenSelected(t, existing);
    OpenRemoval(name);
  }

  /** The open branch's removal gives back the stripped target. */
  lemma OpenRemoval(name: string)
    ensures Strip(RemoveFirst("open " + name, "open")) == Strip(name)
  {
    assert "open " + name == "open" + (" " + name);
    RemoveFirstPrefix("open", " " + name);
    StripLeadingSpace(name);
  }

  /** "open app " followed by a name without "open" in it opens that name, stripped. */
  lemma OpenAppTarget(name: string, existing: set<string>)
    requires NoneBefore(4, "open app " + name)
    requires !Contains(name, "open")
    ensures Classify("open app " + name, existing) ==
      (if Strip(name) == [] then AskAppName else OpenApp(Strip(name)))
  {
    var t := "open app " + name;
    assert "open" + " app " + name == t && "open" + " app" == "open app";
    AppNameRemoval("open", name);
    assert StartsWith(t, "open app") by { assert t[..8] == "open app"; }
    OpenAppSelected(t, existing);
  }

  /**
   * The removals of the open-app and close-app branches, on the verb, " app",
   * a space and a name without the verb, give back the stripped name.
   */
  lemma AppNameRemoval(verb: string, name: string)
    requires verb == "open" || verb == "close"
    requires !Contains(name, verb)
    ensures Strip(RemoveAll(RemoveAll(verb + " app " + name, verb + " app"), verb)) == Strip(name)
  {
    assert verb + " app " + name == verb + " app" + " " + name;
    RemoveBoth(name, verb, " app");
  }

  /** An utterance starting with "open app" that no earlier test takes goes to the open-app branch. */
  lemma OpenAppSelected(text: string, existing: set<string>)
    requires NoneBefore(4, text) && StartsWith(text, "open app")
    ensures Classify(text, existing) == OpenAppCommand(text)
  {
    assert !Fires(0, text) && !Fires(1, text) && !Fires(2, text) && !Fires(3, text);
  }

  /**
   * The removals of the open-app and close branches: with `p` absent from
   * `name`, removing every `p + q`, then every `p`, from `p + q + " " + name`
   * and stripping gives back `name` stripped.
   */
  lemma RemoveBoth(name: string, p: string, q: string)
    requires p != [] && p[0] != ' ' && !Contains(name, p)
    ensures Strip(RemoveAll(RemoveAll(p + q + " " + name, p + q), p)) == Strip(name)
  {
    assert p + q + " " + name == (p + q) + (" " + name);
    RemoveAllPrefix(p + q, " " + name);
    if Contains(name, p + q) {
      ContainsPrefixOf(name, p, q);
    }
    NotContainsAfterSpace(name, p + q);
    NotContainsAfterSpace(name, p);
    StripLeadingSpace(name);
  }

  /** "close app " followed by a name without "close" in it closes the windows of that name. */
  lemma CloseAppTarget(name: string, existing: set<string>)
    requires NoneBefore(11, "close app " + name)
    requires !Contains(name, "close")
    ensures Classify("close app " + name, existing) ==
      (if Strip(name) == [] then AskCloseName else CloseByName(Strip(name)))
  {
    var t := "close app " + name;
    assert "close" + " app " + name == t && "close" + " app" == "close app";
    AppNameRemoval("close", name);
    assert StartsWith(t, "close app") by { assert t[..9] == "close app"; }
    CloseAppSelected(t, existing);
  }

  /** An utterance starting with "close app" that no earlier test takes goes to close-by-name. */
  lemma CloseAppSelected(text: string, existing: set<string>)
    requires NoneBefore(11, text) && StartsWith(text, "close app")
    ensures Classify(text, existing) ==
      (var t := Strip(RemoveAll(RemoveAll(text, "close app"), "close"));
       if t == [] then AskCloseName else CloseByName(t))
  {
    assert text[..6] == "close ";
    assert text[6] != "close window"[6];
    CloseSelected(text, existing);
  }

  /** An utterance the close test takes, when no earlier test does, goes to the close branch. */
  lemma CloseSelected(text: string, existing: set<string>)
    requires NoneBefore(11, text) && Fires(11, text)
    ensures Classify(text, existing) == CloseCommand(text)
  {
    assert NoneBefore(9, text);
    ReachesWindowTests(text, existing);
    assert !Fires(9, text) && !Fires(10, text);
    WindowTestsClose(text);
  }

  /**
   * "close " followed by a name closes the windows of that name, stripped,
   * unless the utterance is exactly "close window". The name must not hold
   * "close" nor start with "app", which the branch would remove as well.
   */
  lemma CloseTarget(name: string, existing: set<string>)
    requires NoneBefore(11, "close " + name)
    requires !Contains(name, "close") && !StartsWith(name, "app") && name != "window"
    ensures Classify("close " + name, existing) ==
      (if Strip(name) == [] then AskCloseName else CloseByName(Strip(name)))
  {
    var t := "close " + name;
    assert StartsWith(t, "close ") by { assert t[..6] == "close "; }
    assert t != "close window" by { assert t[6..] == name; }
    CloseSelected(t, existing);
    CloseRemoval(name);
  }

  /** The close branch's removals on "close " + name give back " " + name. */
  lemma CloseRemoval(name: string)
    requires !Contains(name, "close") && !StartsWith(name, "app")
    ensures Strip(RemoveAll(RemoveAll("close " + name, "close app"), "close")) == Strip(name)
  {
    var t := "close " + name;
    if Contains(name, "close app") {
      assert "close" + " app" == "close app";
      ContainsPrefixOf(name, "close", " app");
    }
    assert t[6..] == name;
    assert !StartsWith(t, "close app");
    NotContainsAfterPrefix("close ", name, "close app");
    assert t == "close" + (" " + name);
    RemoveAllPrefix("close", " " + name);
    NotContainsAfterSpace(name, "close");
    StripLeadingSpace(name);
  }

  /** The active window is closed exactly for the utterance "close window". */
  lemma CloseActiveIff(text: string, existing: set<string>)
    ensures Classify(text, existing) == CloseActive <==> text == "close window"
  {
    if Classify(text, existing) == CloseActive {
      ClassifyFollowsOrder(text, existing);
      assert Rule(CloseActive) == 11;
      CloseSelected(text, existing);
    }
    if text == "close window" {
      CloseWindowHelpStop(text);
      CloseWindowTypeToOpen(text);
      CloseWindowEnumerateToMinimize(text);
      CloseWindowMaximizeToClose(text);
      NoneBeforeUpTo(text);
      CloseSelected(text, existing);
    }
  }

  /** Neither the help test nor the stop test holds for "close window". */
  lemma CloseWindowHelpStop(txt: string)
    requires txt == "close window"
    ensures !Fires(0, txt) && !Fires(1, txt)
  {
    NotContainsChar(txt, "help", 0);
    NotContainsChar(txt, "stop assistant", 3);
    NotContainsChar(txt, "exit assistant", 1);
    NotContainsChar(txt, "quit assistant", 0);
  }

  /** None of the type, press, open-app and open tests holds for "close window". */
  lemma CloseWindowTypeToOpen(txt: string)
    requires txt == "close window"
    ensures !Fires(2, txt) && !Fires(3, txt) && !Fires(4, txt) && !Fires(5, txt)
  {
    assert txt[0] == 'c';
  }

  /** None of the enumerate, click and minimize tests holds for "close window". */
  lemma CloseWindowEnumerateToMinimize(txt: string)
    requires txt == "close window"
    ensures !Fires(6, txt) && !Fires(7, txt) && !Fires(8, txt)
  {
    NotContainsChar(txt, "enumerate files", 2);
    NotContainsChar(txt, "list files", 3);
    NotContainsChar(txt, "enumerate", 2);
    NotContainsChar(txt, "show files", 1);
    assert txt[2] != "click"[2];
    NotContainsChar(txt, "minimize", 0);
    NotContainsChar(txt, "minimise", 0);
  }

  /** Neither the maximize nor the restore test holds for "close window", and the close test does. */
  lemma CloseWindowMaximizeToClose(txt: string)
    requires txt == "close window"
    ensures !Fires(9, txt) && !Fires(10, txt) && Fires(11, txt)
  {
    NotContainsChar(txt, "maximize", 0);
    NotContainsChar(txt, "restore", 0);
    NotContainsChar(txt, "unmaximize", 0);
    NotContainsChar(txt, "restore window", 0);
    assert txt[..6] == "close ";
  }

  /** Eleven failed tests in a row: none of the tests before the close test holds. */
  lemma NoneBeforeUpTo(text: string)
    requires !Fires(0, text) && !Fires(1, text) && !Fires(2, text) && !Fires(3, text)
    requires !Fires(4, text) && !Fires(5, text) && !Fires(6, text) && !Fires(7, text)
    requires !Fires(8, text) && !Fires(9, text) && !Fires(10, text)
    ensures NoneBefore(11, text)
  {
  }

  /** The command of an utterance is the one of the first test in the chain that holds. */
  lemma ClassifyIsFirstFiring(text: string, existing: set<string>)
    ensures Rule(Classify(text, existing)) == FirstFiring(text, 0)
  {
    ClassifyFollowsOrder(text, existing);
    FirstFiringSpec(text, 0);
  }

  // ---------------------------------------------------------------------------
  // Concrete utterances

  /**
   * The restore branch is reached only through "restore": "unmaximize"
   * contains "maximize", which the maximize test before it takes, and
   * "restore window" contains "restore".
   */
  lemma RestoreNeedsRestore(text: string, existing: set<string>)
    ensures Classify(text, existing) == RestoreActive ==> Contains(text, "restore")
  {
    if Classify(text, existing) == RestoreActive {
      assert !Fires(9, text) && Fires(10, text) by {
        ClassifyFollowsOrder(text, existing);
      }
      RestoreTestNeedsRestore(text);
    }
  }

  /** When the restore test holds and the maximize test does not, "restore" occurs. */
  lemma RestoreTestNeedsRestore(text: string)
    requires !Fires(9, text) && Fires(10, text)
    ensures Contains(text, "restore")
  {
    if Contains(text, "unmaximize") {
      assert "un" + "maximize" == "unmaximize";
      ContainsSuffixOf(text, "un", "maximize");
    }
    if Contains(text, "restore window") {
      assert "restore" + " window" == "restore window";
      ContainsPrefixOf(text, "restore", " window");
    }
  }

  /**
   * The two-word aliases "f one" to "f twelve" are never looked up, since
   * split() never yields a word with a space: a function key is pressed only
   * when it is said by its own name.
   */
  lemma FunctionKeysOnlyByName(ws: seq<string>)
    requires forall i :: 0 <= i < |ws| ==> IsToken(ws[i])
    ensures forall i :: 0 <= i < |ws| && Aliases(ws)[i] in FunctionKeys ==> Aliases(ws)[i] == ws[i]
  {
    forall i | 0 <= i < |ws| && Aliases(ws)[i] in FunctionKeys
      ensures Aliases(ws)[i] == ws[i]
    {
      if ws[i] in KeyAlias {
        NoFunctionKeyFromAWord(ws[i]);
      }
    }
  }

  const FunctionKeys: set<string> := {"f1", "f2", "f3", "f4", "f5", "f6", "f7", "f8", "f9", "f10", "f11", "f12"}

  /** No single word in the alias table stands for a function key. */
  lemma NoFunctionKeyFromAWord(w: string)
    requires IsToken(w) && w in KeyAlias
    ensures KeyAlias[w] !in FunctionKeys
  {
    if w in FunctionKeyAlias {
      SpokenFunctionKeysHaveSpace(w);
      assert false;
    } else {
      NamedKeysAreNotFunctionKeys(w);
    }
  }

  lemma SpokenFunctionKeysHaveSpace(w: string)
    requires w in FunctionKeyAlias
    ensures |w| > 1 && w[1] == ' '
  {
  }

  lemma NamedKeysAreNotFunctionKeys(w: string)
    requires w in NamedKeyAlias
    ensures NamedKeyAlias[w] !in FunctionKeys
  {
  }

  // ---------------------------------------------------------------------------
  // Numbered overlay and clicking by number

  /** The number-to-position mapping of show_numbered_overlays: number i + 1 stands for coords[i]. */
  function OverlayMapping(coords: seq<Point>): (m: map<nat, Point>)
    ensures forall k: nat :: k in m <==> 1 <= k <= |coords|
    ensures forall i :: 0 <= i < |coords| ==> i + 1 in m && m[i + 1] == coords[i]
  {
    if coords == [] then map[]
    else
      var n := |coords|;
      OverlayMapping(coords[..n - 1])[n := coords[n - 1]]
  }

  /** A numbered badge 36 pixels across, placed above and left of the item's centre. */
  datatype NumberLabel = NumberLabel(number: nat, x: int, y: int)

  const BadgeDiameter := 36

  /** int(x - w/2), int(y - h - 10) for a badge of the standard diameter at an integer centre. */
  function LabelAt(number: nat, p: Point): (l: NumberLabel)
    ensures l.number == number
    ensures l.x + BadgeDiameter / 2 == p.x && l.y + BadgeDiameter + 10 == p.y
  {
    NumberLabel(number, p.x - BadgeDiameter / 2, p.y - BadgeDiameter - 10)
  }

  /** The badges show_numbered_overlays places: number i + 1 next to coords[i]. */
  function Badges(coords: seq<Point>): (bs: seq<NumberLabel>)
    ensures |bs| == |coords|
    ensures forall i :: 0 <= i < |coords| ==> bs[i].number == i + 1
  {
    seq(|coords|, i requires 0 <= i < |coords| => LabelAt(i + 1, coords[i]))
  }

  /** The overlay window: its badges, whether it is shown, and whether its Tk root exists. */
  class OverlayManager {
    var labels: seq<NumberLabel>
    var visible: bool
    var hasRoot: bool

    constructor()
      ensures labels == [] && !visible && !hasRoot
    {
      labels := [];
      visible := false;
      hasRoot := false;
    }

    /**
     * Replaces the badges by one per item, numbered from 1 in order, and
     * returns the mapping from each shown number to its item's position.
     */
    method ShowNumberedOverlays(coords: seq<Point>) returns (mapping: map<nat, Point>)
      modifies this
      ensures hasRoot && visible
      ensures labels == Badges(coords)
      ensures mapping == OverlayMapping(coords)
    {
      hasRoot := true;
      labels := [];
      visible := true;
      for i := 0 to |coords|
        invariant hasRoot && visible
        invariant |labels| == i
        invariant forall j :: 0 <= j < i ==> labels[j] == LabelAt(j + 1, coords[j])
      {
        labels := labels + [LabelAt(i + 1, coords[i])];
      }
      assert labels == Badges(coords);
      mapping := OverlayMapping(coords);
    }

    /** Hides the overlay; the badges and the root go only when a root exists. */
    method Clear()
      modifies this
      ensures !visible && !hasRoot
      ensures labels == if old(hasRoot) then [] else old(labels)
    {
      visible := false;
      if hasRoot {
        labels := [];
        hasRoot := false;
      }
    }
  }

  /** The badge for each number in the mapping carries that number and sits next to the position it maps to. */
  lemma BadgeMatchesMapping(coords: seq<Point>, k: nat)
    requires k in OverlayMapping(coords)
    ensures 1 <= k <= |coords|
    ensures Badges(coords)[k - 1] == LabelAt(k, OverlayMapping(coords)[k])
  {
    assert OverlayMapping(coords)[(k - 1) + 1] == coords[k - 1];
  }

  /** What clicking by number does once the Explorer items are known. */
  datatype ClickOutcome =
    | NoItems
    | NoNumberHeard
    | ClickAt(number: nat, at: Point)
    | InvalidNumber

  /** The enumerate branch after the items are listed: overlay, listen, click what the overlay maps. */
  function EnumerateOutcome(coords: seq<Point>, heard: Option<nat>): (r: ClickOutcome)
    ensures coords == [] <==> r == NoItems
    ensures r == NoNumberHeard <==> coords != [] && heard.None?
    ensures r.ClickAt? <==> coords != [] && heard.Some? && 1 <= heard.value <= |coords|
    ensures r.ClickAt? ==> r.number == heard.value && r.at == coords[r.number - 1]
  {
    if coords == [] then NoItems
    else if heard.None? then NoNumberHeard
    else
      var m := OverlayMapping(coords);
      if heard.value in m then ClickAt(heard.value, m[heard.value]) else InvalidNumber
  }

  /** The click-number branch: item n - 1 of the freshly listed items when 1 <= n <= their count. */
  function ClickNumberOutcome(n: nat, items: seq<Point>): (r: ClickOutcome)
    ensures items == [] <==> r == NoItems
    ensures r.ClickAt? <==> items != [] && 1 <= n <= |items|
    ensures r.ClickAt? ==> r.number == n && r.at == items[n - 1]
    ensures r != NoNumberHeard
  {
    if items == [] then NoItems
    else if 1 <= n <= |items| then ClickAt(n, items[n - 1])
    else InvalidNumber
  }

  /** Saying a number after "enumerate files" and saying "click number n" reach the same item. */
  lemma ClickPathsAgree(n: nat, coords: seq<Point>)
    ensures EnumerateOutcome(coords, Some(n)) == ClickNumberOutcome(n, coords)
  {
  }

  // ---------------------------------------------------------------------------
  // Finding windows by name

  /** A top-level window as EnumWindows reports it. */
  datatype Window = Window(handle: int, title: string, className: string)

  /** The lowered name occurs in the lowered title or the lowered class name. */
  predicate NameMatches(name: string, w: Window)
  {
    Contains(Lower(w.title), Lower(name)) || Contains(Lower(w.className), Lower(name))
  }

  /** The handles of the matching windows, in enumeration order. */
  function MatchingHandles(name: string, windows: seq<Window>): (hs: seq<int>)
    ensures |hs| <= |windows|
  {
    if windows == [] then []
    else (if NameMatches(name, windows[0]) then [windows[0].handle] else []) + MatchingHandles(name, windows[1..])
  }

  /** Filtering a concatenation filters each part and keeps them in order. */
  lemma {:induction false} MatchingHandlesAppend(name: string, a: seq<Window>, b: seq<Window>)
    ensures MatchingHandles(name, a + b) == MatchingHandles(name, a) + MatchingHandles(name, b)
  {
    if a != [] {
      assert (a + b)[0] == a[0];
      assert (a + b)[1..] == a[1..] + b;
      MatchingHandlesAppend(name, a[1..], b);
    } else {
      assert a + b == b;
    }
  }

  /** A handle is reported exactly when some window with that handle matches. */
  lemma {:induction false} MatchingHandlesSpec(name: string, windows: seq<Window>)
    ensures forall h :: h in MatchingHandles(name, windows) <==>
      exists i :: 0 <= i < |windows| && windows[i].handle == h && NameMatches(name, windows[i])
  {
    if windows != [] {
      MatchingHandlesSpec(name, windows[1..]);
      forall h | h in MatchingHandles(name, windows)
        ensures exists i :: 0 <= i < |windows| && windows[i].handle == h && NameMatches(name, windows[i])
      {
        if h in MatchingHandles(name, windows[1..]) {
          var i :| 0 <= i < |windows[1..]| && windows[1..][i].handle == h && NameMatches(name, windows[1..][i]);
          assert windows[i + 1] == windows[1..][i];
        } else {
          assert windows[0].handle == h && NameMatches(name, windows[0]);
        }
      }
      forall h | exists i :: 0 <= i < |windows| && windows[i].handle == h && NameMatches(name, windows[i])
        ensures h in MatchingHandles(name, windows)
      {
        var i :| 0 <= i < |windows| && windows[i].handle == h && NameMatches(name, windows[i]);
        if i > 0 {
          assert windows[1..][i - 1] == windows[i];
        }
      }
    }
  }

  /** The search ignores the case of the name it is given. */
  lemma MatchingIgnoresCase(name: string, windows: seq<Window>)
    ensures MatchingHandles(Lower(name), windows) == MatchingHandles(name, windows)
  {
    LowerIdempotent(name);
    if windows != [] {
      MatchingIgnoresCase(name, windows[1..]);
    }
  }

  /** find_window_by_title_contains: the enumeration callback appends each matching handle. */
  method FindWindowsByTitleContains(name: string, windows: seq<Window>) returns (results: seq<int>)
    ensures results == MatchingHandles(name, windows)
  {
    var lowered := Lower(name);
    results := [];
    for i := 0 to |windows|
      invariant results == MatchingHandles(name, windows[..i])
    {
      var w := windows[i];
      if Contains(Lower(w.title), lowered) || Contains(Lower(w.className), lowered) {
        results := results + [w.handle];
      }
      assert windows[..i + 1] == windows[..i] + [w];
      MatchingHandlesAppend(name, windows[..i], [w]);
    }
    assert windows[..|windows|] == windows;
  }
}
