/**
 * `escapeRegExp` and `makeContactNamesClickable` from frontend/chat.js: an
 * assistant reply is escaped, and then, for every contact of the roster in
 * its current order whose name occurs in the raw reply, every occurrence of
 * the escaped name in the html built so far becomes a link to the contact.
 */
module Linkify {
  import opened Wrappers
  import opened Strings
  import opened Escape
  import opened Contacts

  // ---------------------------------------------------------------------------
  // escapeRegExp (lines 94-96)

  /** The syntax characters of an ECMAScript regular expression, which `escapeRegExp` escapes. */
  predicate IsRegExpSpecial(c: char) {
    c in ".*+?^${}()|[]\\"
  }

  /** `escapeRegExp(s)`: a backslash before every syntax character. */
  function EscapeRegExp(s: string): (r: string)
    ensures |r| >= |s|
    ensures r == [] <==> s == []
  {
    if s == [] then []
    else (if IsRegExpSpecial(s[0]) then ['\\', s[0]] else [s[0]]) + EscapeRegExp(s[1..])
  }

  /**
   * The string a pattern matches when the pattern is literal: made only of
   * ordinary characters and of syntax characters escaped by a backslash.
   * Any other pattern (an unescaped syntax character, a trailing backslash,
   * a class such as `\d`) is not literal.
   */
  function PatternLiteral(p: string): Option<string>
    decreases |p|
  {
    if p == [] then Some([])
    else if p[0] == '\\' then
      if |p| >= 2 && IsRegExpSpecial(p[1]) then
        match PatternLiteral(p[2..])
        case Some(t) => Some([p[1]] + t)
        case None => None
      else None
    else if IsRegExpSpecial(p[0]) then None
    else
      match PatternLiteral(p[1..])
      case Some(t) => Some([p[0]] + t)
      case None => None
  }

  /** The escaped string is a literal pattern that matches exactly the string it was made from. */
  lemma {:induction false} EscapeRegExpLiteral(s: string)
    ensures PatternLiteral(EscapeRegExp(s)) == Some(s)
    decreases |s|
  {
    if s != [] {
      var p := EscapeRegExp(s);
      EscapeRegExpLiteral(s[1..]);
      if IsRegExpSpecial(s[0]) {
        assert p[0] == '\\' && p[1] == s[0] && p[2..] == EscapeRegExp(s[1..]);
      } else {
        assert p[0] == s[0] && p[1..] == EscapeRegExp(s[1..]);
      }
      assert s == [s[0]] + s[1..];
    }
  }

  /** A string without syntax characters is its own pattern. */
  lemma {:induction false} EscapeRegExpPlain(s: string)
    requires forall i :: 0 <= i < |s| ==> !IsRegExpSpecial(s[i])
    ensures EscapeRegExp(s) == s
    decreases |s|
  {
    if s != [] {
      EscapeRegExpPlain(s[1..]);
      assert s == [s[0]] + s[1..];
    }
  }

  // ---------------------------------------------------------------------------
  // makeContactNamesClickable (lines 70-85)

  /** The link for one contact (line 80): its id unescaped in the attribute, its escaped name as the text. */
  function Anchor(id: string, escapedName: string): (r: string)
    ensures |r| >= 2 && r[0] == '<' && r[1] == 'a' && r[|r| - 1] == '>'
    ensures Contains(r, escapedName)
  {
    var open := "<a" + " href=\"#\" class=\"chat-contact-link\" data-contact-id=\"" + id
      + "\" style=\"color:#e86c2a;font-weight:600;text-decoration:underline;cursor:pointer;\">";
    var r := open + escapedName + "</a>";
    assert r[..2] == "<a";
    ContainsAt(r, escapedName);
    assert OccursAt(r, escapedName, |open|);
    r
  }

  /** Whether the loop links contact `c` for the raw reply `text` (line 78). */
  predicate Processed(c: Contact, text: string) {
    c.name != "" && Contains(text, c.name)
  }

  /** One turn of the loop (lines 78-82). */
  function LinkStep(html: string, text: string, c: Contact): string {
    if Processed(c, text) then
      ReplaceAll(html, EscapeHtml(c.name), Anchor(c.id, EscapeHtml(c.name)))
    else html
  }

  /** The turns of the loop over `roster`, in order, starting from `html`. */
  function LinkThrough(html: string, text: string, roster: seq<Contact>): string
    decreases |roster|
  {
    if roster == [] then html
    else LinkStep(LinkThrough(html, text, roster[..|roster| - 1]), text, roster[|roster| - 1])
  }

  /** One more contact is one more turn. */
  lemma LinkThroughSnoc(html: string, text: string, roster: seq<Contact>, i: nat)
    requires i < |roster|
    ensures LinkThrough(html, text, roster[..i + 1]) == LinkStep(LinkThrough(html, text, roster[..i]), text, roster[i])
  {
    assert roster[..i + 1][..i] == roster[..i];
  }

  /** What `makeContactNamesClickable(text)` returns; `None` is a roster that is not defined. */
  function Linkified(text: string, roster: Option<seq<Contact>>): string {
    if roster == None || roster.value == [] then EscapeHtml(text)
    else LinkThrough(EscapeHtml(text), text, roster.value)
  }

  /**
   * One turn of the loop. The regular expression built from the escaped
   * name is literal and matches the escaped name, so its global replacement
   * is `ReplaceAll` of the escaped name.
   */
  method LinkContact(html: string, text: string, contact: Contact) returns (r: string)
    ensures r == LinkStep(html, text, contact)
  {
    r := html;
    if contact.name != "" && Contains(text, contact.name) {
      var escapedName := EscapeHtml(contact.name);
      var link := Anchor(contact.id, escapedName);
      var pattern := EscapeRegExp(escapedName);
      EscapeRegExpLiteral(escapedName);
      r := ReplaceAll(html, PatternLiteral(pattern).value, link);
    }
  }

  /** The loop itself, over the roster in its current order. */
  method MakeContactNamesClickable(text: string, roster: Option<seq<Contact>>) returns (html: string)
    ensures html == Linkified(text, roster)
  {
    var escaped := EscapeHtml(text);
    if roster == None || |roster.value| == 0 {
      return escaped;
    }
    var contacts := roster.value;
    html := escaped;
    for i := 0 to |contacts|
      invariant html == LinkThrough(escaped, text, contacts[..i])
    {
      html := LinkContact(html, text, contacts[i]);
      LinkThroughSnoc(escaped, text, contacts, i);
    }
    assert contacts[..|contacts|] == contacts;
  }

  // ---------------------------------------------------------------------------
  // Properties

  /** A roster in which no name occurs in the reply, or with empty names only, leaves the escaped reply as it is. */
  lemma {:induction false} NothingToLink(html: string, text: string, roster: seq<Contact>)
    requires forall i :: 0 <= i < |roster| ==> !Processed(roster[i], text)
    ensures LinkThrough(html, text, roster) == html
    decreases |roster|
  {
    if roster != [] {
      NothingToLink(html, text, roster[..|roster| - 1]);
    }
  }

  /** Hence without a roster, with an empty one or with nothing to link, the reply is only escaped (lines 72-74, 78). */
  lemma LinkifiedPlain(text: string, roster: Option<seq<Contact>>)
    requires roster.Some? ==> forall i :: 0 <= i < |roster.value| ==> !Processed(roster.value[i], text)
    ensures Linkified(text, roster) == EscapeHtml(text)
  {
    if roster.Some? {
      NothingToLink(EscapeHtml(text), text, roster.value);
    }
  }

  /** A contact that is processed gets its link as soon as its escaped name occurs in the html so far. */
  lemma StepLinks(html: string, text: string, c: Contact)
    requires Processed(c, text) && Contains(html, EscapeHtml(c.name))
    ensures Contains(LinkStep(html, text, c), Anchor(c.id, EscapeHtml(c.name)))
  {
    ReplaceAllInserts(html, EscapeHtml(c.name), Anchor(c.id, EscapeHtml(c.name)));
  }

  /**
   * Every occurrence is linked, not only the first. Starting from html
   * without markup, as the first contact the loop processes does, masking
   * each of the new links by `<>` leaves no occurrence of the escaped name:
   * each one was inside a link.
   */
  lemma StepLinksEvery(html: string, text: string, c: Contact)
    requires Processed(c, text) && '<' !in html
    ensures !Contains(ReplaceAll(LinkStep(html, text, c), Anchor(c.id, EscapeHtml(c.name)), "<>"), EscapeHtml(c.name))
  {
    var en := EscapeHtml(c.name);
    var a := Anchor(c.id, en);
    ContainsFirst("<>", en);
    ReplaceAllThrough(html, en, a, "<>");
    ReplaceAllLeavesNone(html, en, "<>");
  }

  /** With one contact whose name occurs in the reply, the result holds that contact's link. */
  lemma SingleContactLinked(text: string, c: Contact)
    requires Processed(c, text)
    ensures Contains(Linkified(text, Some([c])), Anchor(c.id, EscapeHtml(c.name)))
  {
    EscapeKeepsContains(text, c.name);
    assert [c][..0] == [];
    assert LinkThrough(EscapeHtml(text), text, [c]) == LinkStep(LinkThrough(EscapeHtml(text), text, []), text, c);
    assert Linkified(text, Some([c])) == LinkStep(EscapeHtml(text), text, c);
    StepLinks(EscapeHtml(text), text, c);
  }

  /** With one contact whose name occurs in the reply, every occurrence of the escaped name in the result is inside one of its links. */
  lemma SingleContactLinksEvery(text: string, c: Contact)
    requires Processed(c, text)
    ensures !Contains(ReplaceAll(Linkified(text, Some([c])), Anchor(c.id, EscapeHtml(c.name)), "<>"), EscapeHtml(c.name))
  {
    assert [c][..0] == [];
    assert LinkThrough(EscapeHtml(text), text, [c]) == LinkStep(LinkThrough(EscapeHtml(text), text, []), text, c);
    StepLinksEvery(EscapeHtml(text), text, c);
  }

  /**
   * With one contact, linking loses nothing: turning each link back into the
   * escaped name gives the escaped reply, which decodes to the reply.
   */
  lemma SingleContactUndo(text: string, c: Contact)
    ensures c.name != "" ==>
      ReplaceAll(Linkified(text, Some([c])), Anchor(c.id, EscapeHtml(c.name)), EscapeHtml(c.name)) == EscapeHtml(text)
    ensures Unescape(EscapeHtml(text)) == text
  {
    EscapeRoundTrip(text);
    if c.name != "" {
      var en := EscapeHtml(c.name);
      var a := Anchor(c.id, en);
      assert [c][..0] == [];
      assert LinkThrough(EscapeHtml(text), text, [c]) == LinkStep(LinkThrough(EscapeHtml(text), text, []), text, c);
      assert Linkified(text, Some([c])) == LinkStep(EscapeHtml(text), text, c);
      if Processed(c, text) {
        assert a[0] == '<' && '<' !in en && '<' !in EscapeHtml(text);
        ReplaceAllUndo(EscapeHtml(text), en, a);
      } else {
        assert '<' !in EscapeHtml(text);
        ContainsFirst(EscapeHtml(text), a);
        ReplaceAllAbsent(EscapeHtml(text), a, en);
      }
    }
  }

  /** A non-empty pattern replaced in itself gives the replacement. */
  lemma ReplaceWhole(p: string, r: string)
    requires p != []
    ensures ReplaceAll(p, p, r) == r
  {
    assert p[|p|..] == [];
  }

  /** Replacing `a` in a string that starts with `<a` puts the replacement right after the `<`. */
  lemma ReplaceSecond(s: string, r: string)
    requires |s| >= 2 && s[0] == '<' && s[1] == 'a'
    ensures "<" + r <= ReplaceAll(s, "a", r)
  {
    assert !("a" <= s);
    assert "a" <= s[1..];
    assert s[1..][1..] == s[2..];
    assert ReplaceAll(s, "a", r) == "<" + (r + ReplaceAll(s[2..], "a", r));
  }

  lemma DanaEscapes()
    ensures EscapeHtml("a") == "a" && EscapeHtml("Dana") == "Dana"
  {
    assert EscapeHtml("na") == "n" + EscapeHtml("a");
    assert EscapeHtml("ana") == "a" + EscapeHtml("na");
    assert EscapeHtml("Dana") == "D" + EscapeHtml("ana");
  }

  /** With the contact "Dana" alone, the reply "Dana" becomes that contact's link. */
  lemma DanaLinked(dana: Contact)
    requires dana == Contact("1", "Dana", "", Lead, None)
    ensures LinkThrough("Dana", "Dana", [dana]) == Anchor("1", "Dana")
  {
    DanaEscapes();
    ContainsAt("Dana", "Dana");
    assert OccursAt("Dana", "Dana", 0);
    ReplaceWhole("Dana", Anchor("1", "Dana"));
    assert [dana][..0] == [];
  }

  /**
   * Names are linked one contact at a time, and a later, shorter name is
   * also matched inside the markup of an earlier link: with contacts
   * "Dana" and "a", the reply "Dana" gives html that starts with `<` and the
   * link of "a" in place of the `a` of the first link's tag.
   */
  lemma ShorterNameInsideEarlierLink()
    ensures var roster := [Contact("1", "Dana", "", Lead, None), Contact("2", "a", "", Lead, None)];
      "<" + Anchor("2", "a") <= Linkified("Dana", Some(roster))
  {
    var dana := Contact("1", "Dana", "", Lead, None);
    var a := Contact("2", "a", "", Lead, None);
    var roster := [dana, a];
    DanaEscapes();
    DanaLinked(dana);
    ContainsAt("Dana", "a");
    assert OccursAt("Dana", "a", 1);
    var first := Anchor("1", "Dana");
    assert roster[..1] == [dana];
    assert Linkified("Dana", Some(roster)) == LinkStep(first, "Dana", a);
    ReplaceSecond(first, Anchor("2", "a"));
  }
}
