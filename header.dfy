/**
 * The strings the page header derives: the page title for the current path, the avatar
 * initials, the short name on the account button and the theme the toggle switches to.
 */
module Header {
  import opened Optional
  import opened JsString

  /** The title shown for each exactly matching path. */
  const PageTitles: map<string, string> := map[
    "/" := "Tổng quan hệ thống",
    "/feed" := "Bảng tin dòng tộc",
    "/directory" := "Danh bạ thành viên",
    "/events" := "Sự kiện & Giỗ chạp",
    "/tree" := "Cây gia phả số",
    "/book" := "Sách gia phả điện tử",
    "/people" := "Danh sách thành viên",
    "/media" := "Thư viện tư liệu",
    "/admin/people" := "Quản trị Gia phả",
    "/admin/users" := "Quản lý người dùng"
  ]

  const DefaultTitle := "Thông tin chi tiết"
  const DefaultShortName := "Thành viên"

  /** `PAGE_TITLES[pathname] || "Thông tin chi tiết"`. */
  function PageTitle(pathname: string): (title: string)
    ensures pathname in PageTitles ==> title == PageTitles[pathname]
    ensures pathname !in PageTitles ==> title == DefaultTitle
    ensures title != ""
  {
    if pathname in PageTitles && PageTitles[pathname] != "" then PageTitles[pathname] else DefaultTitle
  }

  /** The only titled paths with a '/' after the first character lie under "/admin", which has no title. */
  lemma SlashInTitledPath(q: string, i: nat)
    requires q in PageTitles && 0 < i < |q| && q[i] == '/'
    ensures q[..i] == "/admin"
  {
  }

  /**
   * A sub-page of a titled page falls back to the default, because the lookup is by exact
   * path: no titled path extends another titled path at a '/'.
   */
  lemma SubPageHasDefaultTitle()
    ensures PageTitle("/people/I0001") == DefaultTitle
    ensures forall p, x :: p in PageTitles && x != [] && x[0] == '/' ==> PageTitle(p + x) == DefaultTitle
  {
    forall p, x | p in PageTitles && x != [] && x[0] == '/'
      ensures PageTitle(p + x) == DefaultTitle
    {
      if p + x in PageTitles {
        SlashInTitledPath(p + x, |p|);
        assert false;
      }
    }
  }

  // ---------------------------------------------------------------- initials

  /** `w[0]` joined as a string: the first character, or nothing for an empty word. */
  function FirstChar(w: string): (r: string)
    ensures |r| <= 1 && r <= w
  {
    if w == [] then "" else [w[0]]
  }

  /** `words.map((w) => w[0]).join("")`. */
  function FirstChars(words: seq<string>): (r: string)
    ensures |r| <= |words|
    ensures (forall k :: 0 <= k < |words| ==> words[k] != "") ==> |r| == |words|
  {
    if words == [] then "" else FirstChar(words[0]) + FirstChars(words[1..])
  }

  /**
   * Reference definition of the letters that begin a word: every non-space character that
   * opens the string (when `atStart`) or follows a space.
   */
  function WordStarts(s: string, atStart: bool): string {
    if s == [] then ""
    else (if atStart && s[0] != ' ' then [s[0]] else "") + WordStarts(s[1..], s[0] == ' ')
  }

  /**
   * Mapping each piece of `split(" ")` to its first character picks exactly the letters that
   * begin a word; the empty pieces left by repeated, leading or trailing spaces add nothing.
   */
  lemma {:induction false} FirstCharsOfSplit(s: string)
    ensures FirstChars(Split(s, ' ')) == WordStarts(s, true)
    ensures FirstChars(Split(s, ' ')[1..]) == WordStarts(s, false)
  {
    if s != [] {
      FirstCharsOfSplit(s[1..]);
      var rest := Split(s[1..], ' ');
      if s[0] == ' ' {
        assert Split(s, ' ') == [""] + rest;
        assert ([""] + rest)[1..] == rest;
      } else {
        var r := [[s[0]] + rest[0]] + rest[1..];
        assert Split(s, ' ') == r;
        assert r[1..] == rest[1..];
        assert FirstChars(r) == [s[0]] + FirstChars(rest[1..]);
      }
    }
  }

  /**
   * The avatar initials: from a non-empty display name, the first characters of its
   * space-separated words, upper-cased and cut to two; otherwise the first two characters
   * of the e-mail address, upper-cased; "?" when that is empty or missing.
   */
  function Initials(displayName: Option<string>, email: Option<string>): (r: string)
    ensures displayName.Some? && displayName.value != [] ==>
      r == Take(ToUpper(WordStarts(displayName.value, true)), 2)
    ensures !(displayName.Some? && displayName.value != []) ==>
      r == if email.Some? && email.value != [] then ToUpper(Take(email.value, 2)) else "?"
    ensures 1 <= |r| <= 2 || (r == [] && displayName.Some? && displayName.value != [])
  {
    if displayName.Some? && displayName.value != [] then
      FirstCharsOfSplit(displayName.value);
      Take(ToUpper(FirstChars(Split(displayName.value, ' '))), 2)
    else
      var fromEmail := if email.Some? then ToUpper(Take(email.value, 2)) else "";
      if fromEmail != "" then fromEmail else "?"
  }

  /** Position `i` of `s` holds a non-space character that opens the string or follows a space. */
  predicate StartsWord(s: string, atStart: bool, i: nat)
    requires i < |s|
  {
    s[i] != ' ' && (if i == 0 then atStart else s[i - 1] == ' ')
  }

  /** Every letter `WordStarts` collects begins a word of the name. */
  lemma {:induction false} WordStartsBeginWords(s: string, atStart: bool, k: nat)
    requires k < |WordStarts(s, atStart)|
    ensures exists i: nat :: i < |s| && StartsWord(s, atStart, i) && WordStarts(s, atStart)[k] == s[i]
  {
    var head := if atStart && s[0] != ' ' then [s[0]] else "";
    var tail := WordStarts(s[1..], s[0] == ' ');
    assert WordStarts(s, atStart) == head + tail;
    if k < |head| {
      assert StartsWord(s, atStart, 0) && WordStarts(s, atStart)[k] == s[0];
    } else {
      WordStartsBeginWords(s[1..], s[0] == ' ', k - |head|);
      var i: nat :| i < |s[1..]| && StartsWord(s[1..], s[0] == ' ', i) && tail[k - |head|] == s[1..][i];
      assert StartsWord(s, atStart, i + 1) && WordStarts(s, atStart)[k] == s[i + 1];
    }
  }

  /** No letter begins a word in a string of spaces. */
  lemma {:induction false} NoWordStartsInSpaces(s: string, atStart: bool)
    requires forall k :: 0 <= k < |s| ==> s[k] == ' '
    ensures WordStarts(s, atStart) == ""
  {
    if s != [] {
      NoWordStartsInSpaces(s[1..], true);
    }
  }

  /** A non-empty name made only of spaces is truthy, so it yields empty initials and not "?", whatever the e-mail. */
  lemma BlankNameHasNoInitials(name: string, email: Option<string>)
    requires name != [] && forall k :: 0 <= k < |name| ==> name[k] == ' '
    ensures Initials(Some(name), email) == ""
  {
    NoWordStartsInSpaces(name, true);
  }

  /** A doubled space adds an empty word, which contributes nothing to the initials. */
  lemma InitialsSkipEmptyWords()
    ensures Initials(Some("a  b"), None) == "AB"
  {
    assert WordStarts("b", true) == "b";
    assert WordStarts(" b", false) == "b";
    assert WordStarts("  b", false) == "b";
    assert WordStarts("a  b", true) == "ab";
    var up := ToUpper("ab");
    assert up[0] == 'A' && up[1] == 'B';
    assert up == "AB";
  }

  /** Without a display name the initials come from the e-mail address, or are "?". */
  lemma InitialsFromEmail()
    ensures Initials(None, Some("an@example.org")) == "AN"
    ensures Initials(Some(""), Some("")) == "?"
    ensures Initials(None, None) == "?"
  {
  }

  // ---------------------------------------------------------------- short name

  /** `display_name?.split(" ").pop() || "Thành viên"`. */
  function ShortName(displayName: Option<string>): (r: string)
    ensures r != ""
    ensures displayName.None? || displayName.value == [] ==> r == DefaultShortName
  {
    var last := if displayName.Some? then Last(Split(displayName.value, ' ')) else "";
    if last != "" then last else DefaultShortName
  }

  /**
   * The short name is the text after the last space of the display name; it falls back to
   * "Thành viên" exactly when the name is missing, empty or ends with a space.
   */
  lemma ShortNameIsLastWord(displayName: Option<string>)
    ensures var r := ShortName(displayName);
      && (r == DefaultShortName <==>
            displayName.None? || displayName.value == [] || displayName.value[|displayName.value| - 1] == ' ')
      && (r != DefaultShortName ==> var s := displayName.value;
            ' ' !in r && |r| <= |s| && s[|s| - |r|..] == r && (|r| < |s| ==> s[|s| - |r| - 1] == ' '))
  {
    assert DefaultShortName[5] == ' ';
    if displayName.Some? {
      var s := displayName.value;
      var w := Last(Split(s, ' '));
      SplitLast(s, ' ');
      SplitPiecesLackSeparator(s, ' ');
      assert w in Split(s, ' ');
      if w != "" {
        assert s[|s| - 1] == w[|w| - 1];
      }
    }
  }

  // ---------------------------------------------------------------- theme

  /** The theme the toggle switches to: `theme === "dark" ? "light" : "dark"`. */
  function NextTheme(theme: Option<string>): (next: string)
    ensures next == "light" || next == "dark"
    ensures next == "light" <==> theme == Some("dark")
  {
    if theme == Some("dark") then "light" else "dark"
  }

  /** From light or dark the toggle always changes the theme, and twice returns to it. */
  lemma ToggleThemeTwice(theme: string)
    requires theme == "light" || theme == "dark"
    ensures NextTheme(Some(theme)) != theme
    ensures NextTheme(Some(NextTheme(Some(theme)))) == theme
  {
  }
}
