/**
 * The navigation bar (frontend/src/components/Navbar.jsx): the avatar
 * initials, the cart badge, the rules by which the cart count is refreshed,
 * and the log-out reset.
 */
module Navbar {
  import opened Wrappers
  import opened JsOps
  import opened AsciiText
  import opened SeqFilter
  import opened Decimal
  import opened Utf16

  // ---------------------------------------------------------------------
  // Initials
  // ---------------------------------------------------------------------

  const DefaultInitials: string := "AC"

  /** `name.split(' ').filter(p => p.length > 0)`: the words, with runs of spaces producing none. */
  function Words(name: string): (r: seq<string>)
    ensures forall k :: 0 <= k < |r| ==> r[k] != "" && ' ' !in r[k]
  {
    var pieces := Split(name, ' ');
    var r := Filter(NonEmpty, pieces);
    assert forall k :: 0 <= k < |r| ==> r[k] in pieces by {
      forall k | 0 <= k < |r| ensures r[k] in pieces {
        FilterMembership(NonEmpty, pieces, r[k]);
      }
    }
    r
  }

  /**
   * `getInitials`, as the UTF-16 code units it returns: `parts[0][0]` and
   * `substring(0, 2)` index code units, so a word starting with a character
   * at or above U+10000 contributes only the first half of its surrogate pair.
   */
  function Initials(name: Option<string>): (r: seq<int>)
    ensures 1 <= |r| <= 2
    ensures forall k :: 0 <= k < |r| ==> !('a' as int <= r[k] <= 'z' as int)
  {
    if !StrTruthy(name) then Encode(DefaultInitials)
    else
      var parts := Words(name.value);
      if |parts| >= 2 then [UpperUnit(Encode(parts[0])[0]), UpperUnit(Encode(parts[1])[0])]
      else if |parts| == 1 then
        var units := Encode(parts[0]);
        UpperUnits(units[..Min(2, |units|)])
      else Encode(DefaultInitials)
  }

  /** A name of spaces only splits into empty pieces. */
  lemma {:induction false} SplitOfSpaces(s: string)
    requires forall i :: 0 <= i < |s| ==> s[i] == ' '
    ensures forall k :: 0 <= k < |Split(s, ' ')| ==> Split(s, ' ')[k] == ""
    decreases |s|
  {
    if |s| > 0 {
      SplitOfSpaces(s[1..]);
    }
  }

  /** A name with a character other than a space has at least one word. */
  lemma {:induction false} NonSpaceGivesWord(s: string)
    requires exists i :: 0 <= i < |s| && s[i] != ' '
    ensures |Words(s)| >= 1
    decreases |s|
  {
    var pieces := Split(s, ' ');
    if s[0] == ' ' {
      var i :| 0 <= i < |s| && s[i] != ' ';
      assert s[1..][i - 1] == s[i];
      NonSpaceGivesWord(s[1..]);
      var w := Words(s[1..])[0];
      FilterMembership(NonEmpty, Split(s[1..], ' '), w);
      assert w in pieces;
      FilterMembership(NonEmpty, pieces, w);
    } else {
      assert pieces[0] != "";
      FilterMembership(NonEmpty, pieces, pieces[0]);
    }
  }

  /** A missing, empty or all-space name shows "AC"; any other name has at least one word. */
  lemma InitialsFallback(name: Option<string>)
    ensures (!StrTruthy(name) || forall i :: 0 <= i < |name.value| ==> name.value[i] == ' ')
            ==> Initials(name) == Encode(DefaultInitials)
    ensures StrTruthy(name) && (exists i :: 0 <= i < |name.value| && name.value[i] != ' ')
            ==> |Words(name.value)| >= 1
  {
    if StrTruthy(name) {
      var s := name.value;
      if forall i :: 0 <= i < |s| ==> s[i] == ' ' {
        SplitOfSpaces(s);
        FilterNonePass(NonEmpty, Split(s, ' '));
      } else {
        NonSpaceGivesWord(s);
      }
    }
  }

  /** Words written with single spaces between them are exactly the words found. */
  lemma WordsOfSpacedWords(words: seq<string>)
    requires |words| >= 1
    requires forall k :: 0 <= k < |words| ==> words[k] != "" && ' ' !in words[k]
    ensures Words(Join(words, " ")) == words
  {
    assert [' '] == " ";
    SplitJoin(words, ' ');
    FilterAllPass(NonEmpty, words);
  }

  /**
   * Two or more words: the upper-cased first code units of the first two,
   * which are their upper-cased first letters when those lie below U+10000.
   */
  lemma InitialsOfTwoWords(words: seq<string>)
    requires |words| >= 2
    requires forall k :: 0 <= k < |words| ==> words[k] != "" && ' ' !in words[k]
    ensures Initials(Some(Join(words, " "))) == [UpperUnit(Encode(words[0])[0]), UpperUnit(Encode(words[1])[0])]
    ensures words[0][0] as int < PairBase && words[1][0] as int < PairBase ==>
      Initials(Some(Join(words, " "))) == Encode([UpperChar(words[0][0]), UpperChar(words[1][0])])
  {
    var name := Join(words, " ");
    SpacedWordsName(words);
    InitialsOfWords(name, words);
    if words[0][0] as int < PairBase && words[1][0] as int < PairBase {
      LeadingCharsAsUnits(words[0], words[1]);
    }
  }

  /** The upper-cased first code units of two words starting below U+10000 encode their upper-cased first letters. */
  lemma LeadingCharsAsUnits(a: string, b: string)
    requires a != "" && b != "" && a[0] as int < PairBase && b[0] as int < PairBase
    ensures [UpperUnit(Encode(a)[0]), UpperUnit(Encode(b)[0])] == Encode([UpperChar(a[0]), UpperChar(b[0])])
  {
    FirstUnit(a);
    FirstUnit(b);
    var ua, ub := UpperChar(a[0]), UpperChar(b[0]);
    CodeUnitsOfUpper(a[0]);
    CodeUnitsOfUpper(b[0]);
    assert UpperUnit(Encode(a)[0]) == ua as int && UpperUnit(Encode(b)[0]) == ub as int;
    TwoCharUnits(ua, ub);
  }

  /** A present name with two or more words takes the first code unit of the first two. */
  lemma InitialsOfWords(name: string, words: seq<string>)
    requires StrTruthy(Some(name)) && Words(name) == words && |words| >= 2
    ensures Initials(Some(name)) == [UpperUnit(Encode(words[0])[0]), UpperUnit(Encode(words[1])[0])]
  {
  }

  /** Words joined by single spaces make a name that is present and splits back into them. */
  lemma SpacedWordsName(words: seq<string>)
    requires |words| >= 1
    requires forall k :: 0 <= k < |words| ==> words[k] != "" && ' ' !in words[k]
    ensures StrTruthy(Some(Join(words, " ")))
    ensures Words(Join(words, " ")) == words
  {
    WordsOfSpacedWords(words);
    JoinEmptyIff(words, " ");
  }

  /** The first code unit of a word is its first character's. */
  lemma FirstUnit(word: string)
    requires word != ""
    ensures Encode(word)[0] == CodeUnits(word[0])[0]
  {
  }

  /** Two characters below U+10000 are two code units. */
  lemma TwoCharUnits(a: char, b: char)
    requires a as int < PairBase && b as int < PairBase
    ensures Encode([a, b]) == [a as int, b as int]
  {
    assert [a, b][1..] == [b];
  }

  /**
   * One word: its first two code units upper-cased, which are its first two
   * characters upper-cased when those lie below U+10000.
   */
  lemma InitialsOfOneWord(word: string)
    requires word != "" && ' ' !in word
    ensures Initials(Some(word)) == UpperUnits(Encode(word)[..Min(2, |Encode(word)|)])
    ensures (forall i :: 0 <= i < Min(2, |word|) ==> word[i] as int < PairBase) ==>
      Initials(Some(word)) == Encode(ToUpper(word[..Min(2, |word|)]))
  {
    WordsOfSpacedWords([word]);
    if forall i :: 0 <= i < Min(2, |word|) ==> word[i] as int < PairBase {
      var head := word[..Min(2, |word|)];
      ShortPrefixUnits(word);
      EncodeUpper(head);
    }
  }

  /** When the first two characters lie below U+10000, they are the first two code units. */
  lemma ShortPrefixUnits(word: string)
    requires word != ""
    requires forall i :: 0 <= i < Min(2, |word|) ==> word[i] as int < PairBase
    ensures Encode(word)[..Min(2, |Encode(word)|)] == Encode(word[..Min(2, |word|)])
  {
    var head := word[..Min(2, |word|)];
    if |word| == 1 {
      assert head == word;
      assert Encode(word) == [word[0] as int];
    } else {
      assert Encode(word) == [word[0] as int] + Encode(word[1..]);
      assert Encode(word[1..]) == [word[1] as int] + Encode(word[2..]);
      assert head[1..] == [word[1]];
      assert Encode(head) == [word[0] as int] + ([word[1] as int] + Encode([]));
    }
  }

  /**
   * A word starting with U+1F600 gives its high surrogate 0xD83D as the first
   * initial, a code unit that is no character on its own.
   */
  lemma InitialsSplitSurrogatePair()
    ensures Initials(Some(Join(["\U{1F600}", "Budi"], " "))) == [0xD83D, 'B' as int]
  {
    InitialsOfTwoWords(["\U{1F600}", "Budi"]);
    assert Encode("\U{1F600}") == [0xD83D, 0xDE00];
    assert Encode("Budi")[0] == 'B' as int;
  }

  // ---------------------------------------------------------------------
  // Cart badge
  // ---------------------------------------------------------------------

  /** The badge text: hidden at zero or below, the count up to nine, "9+" above. */
  function BadgeLabel(count: int): (r: Option<string>)
    ensures r.None? <==> count <= 0
    ensures count > 9 ==> r == Some("9+")
    ensures r.Some? ==> 1 <= |r.value| <= 2
  {
    if count <= 0 then None
    else if count > 9 then Some("9+")
    else Some(IntToString(count))
  }

  /** From one to nine the badge is a single digit that reads back as the count. */
  lemma BadgeShowsSmallCounts(count: int)
    requires 1 <= count <= 9
    ensures |BadgeLabel(count).value| == 1
    ensures ParseInt(BadgeLabel(count).value) == Some(count)
  {
    var s := IntToString(count);
    assert s == NatToString(count);
    assert BadgeLabel(count) == Some(s);
    ParseIntToString(count);
  }

  // ---------------------------------------------------------------------
  // Cart count
  // ---------------------------------------------------------------------

  /** The answer of the count request. */
  datatype CountResponse = CountAnswered(success: bool, count: Option<int>) | CountThrew

  /** Whether the request went out, and the count afterwards. */
  datatype CountUpdate = CountUpdate(requestSent: bool, count: int)

  /**
   * `fetchCartCount`: zero without a login or a token; otherwise the count
   * from a successful numeric answer, zero on a thrown error, and the old
   * count for any other answer.
   */
  function FetchCartCount(isAuthenticated: bool, hasToken: bool, response: CountResponse, current: int): (r: CountUpdate)
    ensures r.requestSent <==> isAuthenticated && hasToken
    ensures !r.requestSent ==> r.count == 0
    ensures r.requestSent && response.CountThrew? ==> r.count == 0
    ensures r.requestSent && response.CountAnswered? && response.success && response.count.Some?
            ==> r.count == response.count.value
    ensures r.requestSent && response.CountAnswered? && !(response.success && response.count.Some?)
            ==> r.count == current
  {
    if !isAuthenticated || !hasToken then CountUpdate(false, 0)
    else match response
      case CountThrew => CountUpdate(true, 0)
      case CountAnswered(success, count) =>
        if success && count.Some? then CountUpdate(true, count.value) else CountUpdate(true, current)
  }

  /** A count other than zero or the old one can only come from a successful answer carrying it. */
  lemma NewCountComesFromServer(isAuthenticated: bool, hasToken: bool, response: CountResponse, current: int)
    requires FetchCartCount(isAuthenticated, hasToken, response, current).count !in {0, current}
    ensures response.CountAnswered? && response.success && response.count.Some?
    ensures FetchCartCount(isAuthenticated, hasToken, response, current).count == response.count.value
  {
  }

  /**
   * `handleLogoutAndRedirect`: after the session is ended (by the
   * authentication context, outside this model) the count returns to zero and
   * the log-in page opens.
   */
  datatype LogoutEffect = LogoutEffect(cartCount: int, redirect: string)

  function Logout(cartCount: int): (r: LogoutEffect)
    ensures r.cartCount == 0
    ensures r.redirect == "/login"
  {
    LogoutEffect(0, "/login")
  }

  /** After logging out the badge is hidden, and stays hidden until a fetch with a login and a token. */
  lemma LogoutHidesBadge(cartCount: int, isAuthenticated: bool, hasToken: bool, response: CountResponse)
    ensures BadgeLabel(Logout(cartCount).cartCount).None?
    ensures !(isAuthenticated && hasToken) ==>
      BadgeLabel(FetchCartCount(isAuthenticated, hasToken, response, Logout(cartCount).cartCount).count).None?
  {
  }
}
