/**
 * The FAQ page of src/pages/FAQ.jsx: a static table of questions grouped
 * by category, the list `openQuestions` that `toggleQuestion` updates,
 * and the `filteredFaqs` view, a case-insensitive search over every
 * category that falls back to the active category when the search term
 * is empty.
 */
module Faq {
  import opened Wrappers

  datatype FaqEntry = FaqEntry(id: string, question: string, answer: string)

  /** One key of the `faqs` object with its list of entries. */
  datatype Category = Category(key: string, entries: seq<FaqEntry>)

  /** One element of the `categories` list behind the category buttons. */
  datatype CategoryButton = CategoryButton(id: string, name: string)

  /** The `categories` list behind the category buttons. */
  function CategoryButtons(): seq<CategoryButton> {
    [ CategoryButton("general", "General"),
      CategoryButton("booking", "Booking & Payments"),
      CategoryButton("hosting", "Hosting"),
      CategoryButton("account", "Account & Security"),
      CategoryButton("support", "Support") ]
  }

  /** The `faqs` object, its keys in insertion order (the order `Object.values` yields). */
  function Faqs(): seq<Category> {
    [ Category("general", GeneralFaqs()),
      Category("booking", BookingFaqs()),
      Category("hosting", HostingFaqs()),
      Category("account", AccountFaqs()),
      Category("support", SupportFaqs()) ]
  }

  function GeneralFaqs(): seq<FaqEntry> {
    [ FaqEntry("g1", "What is HomeStay?",
        "HomeStay is a platform that connects "
        + "travelers with unique accommodation "
        + "options around the world. We enable "
        + "hosts to share their spaces and provide "
        + "guests with memorable staying "
        + "experiences."),
      FaqEntry("g2", "How do I get started?",
        "Getting started is easy! Simply create "
        + "an account, verify your email, and you "
        + "can start browsing available homestays "
        + "or list your own property."),
      FaqEntry("g3", "Is HomeStay available worldwide?",
        "Yes, HomeStay is available in over 50 "
        + "countries. We’re continuously expanding "
        + "our reach to provide more options for "
        + "travelers globally.") ]
  }

  function BookingFaqs(): seq<FaqEntry> {
    [ FaqEntry("b1", "How do I make a booking?",
        "To make a booking, search for your "
        + "desired location and dates, select a "
        + "homestay, and follow the booking "
        + "process. You’ll need to be logged in to "
        + "complete the booking."),
      FaqEntry("b2", "What payment methods are accepted?",
        "We accept major credit cards, debit "
        + "cards, and various digital payment "
        + "methods including PayPal."),
      FaqEntry("b3", "Can I cancel my booking?",
        "Yes, you can cancel your booking, but "
        + "the refund amount will depend on the "
        + "cancellation policy of the specific "
        + "homestay and how far in advance you "
        + "cancel.") ]
  }

  function HostingFaqs(): seq<FaqEntry> {
    [ FaqEntry("h1", "How do I become a host?",
        "To become a host, create an account, "
        + "click on \"Become a Host,\" and follow "
        + "the step-by-step process to list your "
        + "property."),
      FaqEntry("h2", "How much can I earn as a host?",
        "Your earnings depend on various factors "
        + "including location, property type, and "
        + "seasonal demand. You can use our "
        + "earnings calculator to get an estimate."),
      FaqEntry("h3", "What support do hosts receive?",
        "Hosts receive 24/7 support, access to "
        + "hosting tools, property management "
        + "features, and protection through our "
        + "Host Guarantee program.") ]
  }

  function AccountFaqs(): seq<FaqEntry> {
    [ FaqEntry("a1", "How do I reset my password?",
        "Click on \"Forgot Password\" on the "
        + "login page, enter your email address, "
        + "and follow the instructions sent to "
        + "your email to reset your password."),
      FaqEntry("a2", "How do I verify my account?",
        "Account verification requires a valid "
        + "government ID and email confirmation. "
        + "Some features may require additional "
        + "verification steps.") ]
  }

  function SupportFaqs(): seq<FaqEntry> {
    [ FaqEntry("s1", "How do I contact customer support?",
        "You can reach our customer support team "
        + "through the Contact page, email at "
        + "support@homestay.com, or phone at +1 "
        + "(555) 123-4567."),
      FaqEntry("s2", "What should I do in case of an "
        + "emergency?",
        "In case of emergency, contact local "
        + "authorities first, then notify us "
        + "through our 24/7 emergency support line.") ]
  }

  // ---------------------------------------------------------------------
  // The open-question list and `toggleQuestion`
  // ---------------------------------------------------------------------

  /** `xs` is `ys` with some elements left out, the rest in their order. */
  ghost predicate Subsequence<T>(xs: seq<T>, ys: seq<T>)
    decreases |ys|
  {
    if |ys| == 0 then xs == []
    else (|xs| > 0 && xs[0] == ys[0] && Subsequence(xs[1..], ys[1..])) || Subsequence(xs, ys[1..])
  }

  /** `prev.filter((id) => id !== questionId)`. */
  function RemoveAll(xs: seq<string>, x: string): (r: seq<string>)
    ensures x !in r
    ensures forall y :: y != x ==> (y in r <==> y in xs)
    ensures forall y :: y != x ==> multiset(r)[y] == multiset(xs)[y]
    ensures Subsequence(r, xs)
    ensures |r| <= |xs|
  {
    if |xs| == 0 then []
    else
      assert xs == [xs[0]] + xs[1..];
      var rest := RemoveAll(xs[1..], x);
      if xs[0] == x then rest
      else
        assert ([xs[0]] + rest)[1..] == rest;
        [xs[0]] + rest
  }

  /** The new `openQuestions` after `toggleQuestion(id)`. */
  function Toggle(open: seq<string>, id: string): (r: seq<string>)
  {
    if id in open then RemoveAll(open, id) else open + [id]
  }

  predicate NoDuplicates(xs: seq<string>) {
    forall i, j :: 0 <= i < j < |xs| ==> xs[i] != xs[j]
  }

  /** An open id is removed with all its occurrences; a closed one is appended at the end. */
  lemma ToggleEffect(open: seq<string>, id: string)
    ensures id in Toggle(open, id) <==> id !in open
    ensures id !in open ==> Toggle(open, id) == open + [id]
    ensures id in open ==> |Toggle(open, id)| < |open|
  {
    if id in open {
      RemoveAllShrinks(open, id);
    }
  }

  /** Removing an id that occurs makes the list strictly shorter. */
  lemma {:induction false} RemoveAllShrinks(xs: seq<string>, x: string)
    requires x in xs
    ensures |RemoveAll(xs, x)| < |xs|
  {
    if xs[0] != x {
      RemoveAllShrinks(xs[1..], x);
    }
  }

  /** Removing an id from a list it does not occur in changes nothing. */
  lemma {:induction false} RemoveAbsent(xs: seq<string>, x: string)
    requires x !in xs
    ensures RemoveAll(xs, x) == xs
  {
    if |xs| > 0 {
      RemoveAbsent(xs[1..], x);
      assert xs == [xs[0]] + xs[1..];
    }
  }

  lemma {:induction false} RemoveAllAppend(xs: seq<string>, ys: seq<string>, x: string)
    ensures RemoveAll(xs + ys, x) == RemoveAll(xs, x) + RemoveAll(ys, x)
  {
    if |xs| > 0 {
      assert (xs + ys)[1..] == xs[1..] + ys;
      RemoveAllAppend(xs[1..], ys, x);
    } else {
      assert xs + ys == ys;
    }
  }

  lemma {:induction false} RemoveAllTwice(xs: seq<string>, x: string)
    ensures RemoveAll(RemoveAll(xs, x), x) == RemoveAll(xs, x)
  {
    RemoveAbsent(RemoveAll(xs, x), x);
  }

  /**
   * Every other id keeps its membership, its number of occurrences and its
   * place relative to the remaining ids: erasing `id` before and after the
   * toggle gives the same list, and that list is a subsequence of the
   * toggled one.
   */
  lemma ToggleFrame(open: seq<string>, id: string)
    ensures forall y :: y != id ==> (y in Toggle(open, id) <==> y in open)
    ensures forall y :: y != id ==> multiset(Toggle(open, id))[y] == multiset(open)[y]
    ensures RemoveAll(Toggle(open, id), id) == RemoveAll(open, id)
    ensures Subsequence(RemoveAll(open, id), Toggle(open, id))
  {
    if id in open {
      RemoveAllTwice(open, id);
    } else {
      RemoveAllAppend(open, [id], id);
      assert RemoveAll([id], id) == [];
      assert RemoveAll(open, id) + [] == RemoveAll(open, id);
    }
  }

  /**
   * Toggling the same id twice restores its membership, and restores the
   * whole list when the id was closed.
   */
  lemma ToggleTwice(open: seq<string>, id: string)
    ensures id in Toggle(Toggle(open, id), id) <==> id in open
    ensures forall y :: y in Toggle(Toggle(open, id), id) <==> y in open
    ensures id !in open ==> Toggle(Toggle(open, id), id) == open
  {
    ToggleEffect(open, id);
    ToggleEffect(Toggle(open, id), id);
    ToggleFrame(open, id);
    ToggleFrame(Toggle(open, id), id);
    if id !in open {
      RemoveAllAppend(open, [id], id);
      RemoveAbsent(open, id);
      assert RemoveAll([id], id) == [];
      assert open + [] == open;
    }
  }

  lemma {:induction false} RemoveAllKeepsNoDuplicates(xs: seq<string>, x: string)
    requires NoDuplicates(xs)
    ensures NoDuplicates(RemoveAll(xs, x))
  {
    if |xs| > 0 {
      assert NoDuplicates(xs[1..]) by {
        forall i, j | 0 <= i < j < |xs[1..]| ensures xs[1..][i] != xs[1..][j] {
          assert xs[1..][i] == xs[i + 1] && xs[1..][j] == xs[j + 1];
        }
      }
      RemoveAllKeepsNoDuplicates(xs[1..], x);
      if xs[0] != x {
        assert xs[0] !in xs[1..];
        var r := RemoveAll(xs[1..], x);
        assert xs[0] !in r;
        forall i, j | 0 <= i < j < |[xs[0]] + r| ensures ([xs[0]] + r)[i] != ([xs[0]] + r)[j] {
          if i == 0 {
            assert ([xs[0]] + r)[j] == r[j - 1];
          } else {
            assert ([xs[0]] + r)[i] == r[i - 1] && ([xs[0]] + r)[j] == r[j - 1];
          }
        }
      }
    }
  }

  /** A duplicate-free list of open ids stays duplicate-free under any toggle. */
  lemma ToggleKeepsNoDuplicates(open: seq<string>, id: string)
    requires NoDuplicates(open)
    ensures NoDuplicates(Toggle(open, id))
  {
    if id in open {
      RemoveAllKeepsNoDuplicates(open, id);
    }
  }

  /** Whether the answer of `e` is shown: `openQuestions.includes(faq.id)`. */
  predicate IsOpen(e: FaqEntry, open: seq<string>) {
    e.id in open
  }

  function Ids(entries: seq<FaqEntry>): (ids: seq<string>)
    ensures |ids| == |entries| && forall k :: 0 <= k < |entries| ==> ids[k] == entries[k].id
  {
    if |entries| == 0 then [] else [entries[0].id] + Ids(entries[1..])
  }

  /** Toggling `id` flips the open state of exactly the entries whose id is `id`. */
  lemma ToggleFlipsOnlyItsEntry(entries: seq<FaqEntry>, open: seq<string>, id: string)
    ensures forall e :: e in entries ==>
              (IsOpen(e, Toggle(open, id)) != IsOpen(e, open) <==> e.id == id)
  {
    ToggleEffect(open, id);
    ToggleFrame(open, id);
  }

  /** With unique ids, at most one entry carries a given id, so a toggle flips at most one entry. */
  lemma UniqueIdsSingleEntry(entries: seq<FaqEntry>, id: string, k: nat, l: nat)
    requires NoDuplicates(Ids(entries))
    requires k < |entries| && l < |entries| && entries[k].id == id && entries[l].id == id
    ensures k == l
  {
    var ids := Ids(entries);
    assert ids[k] == id && ids[l] == id;
  }

  // ---------------------------------------------------------------------
  // The `filteredFaqs` view
  // ---------------------------------------------------------------------

  /** `Object.values(faqs).flat()`. */
  function Flatten(cats: seq<Category>): (r: seq<FaqEntry>)
  {
    if |cats| == 0 then [] else cats[0].entries + Flatten(cats[1..])
  }

  lemma {:induction false} FlattenMembership(cats: seq<Category>, e: FaqEntry)
    ensures e in Flatten(cats) <==> exists c :: c in cats && e in c.entries
  {
    if |cats| > 0 {
      FlattenMembership(cats[1..], e);
      assert forall c :: c in cats <==> c == cats[0] || c in cats[1..];
    }
  }

  /** `faqs[key]`: `None` is the `undefined` of a key the object lacks. */
  function Lookup(cats: seq<Category>, key: string): (r: Option<seq<FaqEntry>>)
    ensures r.None? <==> forall c :: c in cats ==> c.key != key
    ensures r.Some? ==> Category(key, r.value) in cats
  {
    if |cats| == 0 then None
    else if cats[0].key == key then Some(cats[0].entries)
    else Lookup(cats[1..], key)
  }

  /** ASCII model of `toLowerCase` on one character. */
  function LowerChar(c: char): char {
    if 'A' <= c <= 'Z' then (c as int + 32) as char else c
  }

  /** ASCII model of `String.prototype.toLowerCase`. */
  function Lower(s: string): (r: string)
    ensures |r| == |s| && forall k :: 0 <= k < |s| ==> r[k] == LowerChar(s[k])
  {
    if |s| == 0 then [] else [LowerChar(s[0])] + Lower(s[1..])
  }

  /** Lower-casing twice is lower-casing once. */
  lemma LowerIdempotent(s: string)
    ensures Lower(Lower(s)) == Lower(s)
  {
  }

  /** `t` occurs in `s` starting at index `i`. */
  ghost predicate OccursAt(t: string, s: string, i: nat) {
    i + |t| <= |s| && s[i..i + |t|] == t
  }

  /** `t` occurs in `s` at some position. */
  ghost predicate OccursIn(t: string, s: string) {
    exists i: nat :: OccursAt(t, s, i)
  }

  /** `s.includes(t)`. */
  function Includes(s: string, t: string): bool
  {
    if t <= s then true
    else if |s| == 0 then false
    else Includes(s[1..], t)
  }

  /** `Includes` is exactly substring occurrence. */
  lemma {:induction false} IncludesIff(s: string, t: string)
    ensures Includes(s, t) <==> OccursIn(t, s)
  {
    if t <= s {
      assert OccursAt(t, s, 0);
    } else if |s| > 0 {
      IncludesIff(s[1..], t);
      if OccursIn(t, s) {
        var i: nat :| OccursAt(t, s, i);
        assert i != 0;
        assert s[1..][i - 1..i - 1 + |t|] == s[i..i + |t|];
        assert OccursAt(t, s[1..], i - 1);
      }
      if OccursIn(t, s[1..]) {
        var i: nat :| OccursAt(t, s[1..], i);
        assert s[i + 1..i + 1 + |t|] == s[1..][i..i + |t|];
        assert OccursAt(t, s, i + 1);
      }
    }
  }

  /** The search callback: the lower-cased question or answer contains the lower-cased term. */
  predicate MatchesTerm(e: FaqEntry, term: string) {
    Includes(Lower(e.question), Lower(term)) || Includes(Lower(e.answer), Lower(term))
  }

  /** `.filter(...)` with the search callback, in the order of `entries`. */
  function FilterEntries(entries: seq<FaqEntry>, term: string): (r: seq<FaqEntry>)
    ensures |r| <= |entries|
  {
    if |entries| == 0 then []
    else if MatchesTerm(entries[0], term) then [entries[0]] + FilterEntries(entries[1..], term)
    else FilterEntries(entries[1..], term)
  }

  /** Soundness and completeness: an entry is kept exactly when it is present and matches. */
  lemma {:induction false} FilterMembership(entries: seq<FaqEntry>, term: string, e: FaqEntry)
    ensures e in FilterEntries(entries, term) <==> e in entries && MatchesTerm(e, term)
  {
    if |entries| > 0 {
      FilterMembership(entries[1..], term, e);
      assert e in entries <==> e == entries[0] || e in entries[1..];
    }
  }

  /** The filter works piecewise, so it keeps declaration order across categories. */
  lemma {:induction false} FilterAppend(xs: seq<FaqEntry>, ys: seq<FaqEntry>, term: string)
    ensures FilterEntries(xs + ys, term) == FilterEntries(xs, term) + FilterEntries(ys, term)
  {
    if |xs| > 0 {
      assert (xs + ys)[1..] == xs[1..] + ys;
      FilterAppend(xs[1..], ys, term);
    } else {
      assert xs + ys == ys;
    }
  }

  /** The filter keeps every copy of a matching entry and no copy of another. */
  lemma {:induction false} FilterCount(entries: seq<FaqEntry>, term: string, e: FaqEntry)
    ensures multiset(FilterEntries(entries, term))[e] ==
            if MatchesTerm(e, term) then multiset(entries)[e] else 0
  {
    if |entries| > 0 {
      FilterCount(entries[1..], term, e);
      assert entries == [entries[0]] + entries[1..];
    }
  }

  lemma {:induction false} FilterIsSubsequence(entries: seq<FaqEntry>, term: string)
    ensures Subsequence(FilterEntries(entries, term), entries)
  {
    if |entries| > 0 {
      FilterIsSubsequence(entries[1..], term);
      var rest := FilterEntries(entries[1..], term);
      if MatchesTerm(entries[0], term) {
        assert ([entries[0]] + rest)[1..] == rest;
      }
    }
  }

  /**
   * `filteredFaqs`: with a search term, the matching entries of every
   * category in declaration order; without one, `faqs[activeCategory]`.
   */
  function FilteredFaqs(cats: seq<Category>, searchTerm: string, activeCategory: string): (r: Option<seq<FaqEntry>>)
    ensures searchTerm == "" ==> r == Lookup(cats, activeCategory)
    ensures searchTerm != "" ==> r.Some?
    ensures searchTerm != "" ==> forall e :: e in r.value <==>
              (exists c :: c in cats && e in c.entries) && MatchesTerm(e, searchTerm)
    ensures searchTerm != "" ==> Subsequence(r.value, Flatten(cats))
    ensures searchTerm != "" ==> forall e :: multiset(r.value)[e] ==
                                   (if MatchesTerm(e, searchTerm) then multiset(Flatten(cats))[e] else 0)
  {
    if searchTerm != "" then
      var all := Flatten(cats);
      var r := FilterEntries(all, searchTerm);
      assert forall e :: e in r <==> (exists c :: c in cats && e in c.entries) && MatchesTerm(e, searchTerm) by {
        forall e ensures e in r <==> (exists c :: c in cats && e in c.entries) && MatchesTerm(e, searchTerm) {
          FilterMembership(all, searchTerm, e);
          FlattenMembership(cats, e);
        }
      }
      FilterIsSubsequence(all, searchTerm);
      forall e ensures multiset(r)[e] == if MatchesTerm(e, searchTerm) then multiset(all)[e] else 0 {
        FilterCount(all, searchTerm, e);
      }
      Some(r)
    else Lookup(cats, activeCategory)
  }

  /** The search ignores the case of the term. */
  lemma SearchIgnoresTermCase(entries: seq<FaqEntry>, term: string)
    ensures FilterEntries(entries, Lower(term)) == FilterEntries(entries, term)
  {
    LowerIdempotent(term);
    FilterIgnoresCase(entries, term);
  }

  lemma {:induction false} FilterIgnoresCase(entries: seq<FaqEntry>, term: string)
    requires Lower(Lower(term)) == Lower(term)
    ensures FilterEntries(entries, Lower(term)) == FilterEntries(entries, term)
  {
    if |entries| > 0 {
      FilterIgnoresCase(entries[1..], term);
    }
  }

  /** The flattened table is the five categories in the order of their keys. */
  lemma FlattenShipped()
    ensures Flatten(Faqs()) == GeneralFaqs() + (BookingFaqs() + (HostingFaqs() + (AccountFaqs() + (SupportFaqs() + []))))
  {
  }

  lemma GeneralIds()
    ensures Ids(GeneralFaqs()) == ["g1", "g2", "g3"]
  {
  }

  lemma BookingIds()
    ensures Ids(BookingFaqs()) == ["b1", "b2", "b3"]
  {
  }

  lemma HostingIds()
    ensures Ids(HostingFaqs()) == ["h1", "h2", "h3"]
  {
  }

  lemma AccountIds()
    ensures Ids(AccountFaqs()) == ["a1", "a2"]
  {
  }

  lemma SupportIds()
    ensures Ids(SupportFaqs()) == ["s1", "s2"]
  {
  }

  /** The ids of the shipped table, in declaration order. */
  lemma ShippedIds()
    ensures Ids(Flatten(Faqs())) == ["g1", "g2", "g3", "b1", "b2", "b3", "h1", "h2", "h3", "a1", "a2", "s1", "s2"]
  {
    hide *;
    FlattenShipped();
    GeneralIds();
    BookingIds();
    HostingIds();
    AccountIds();
    SupportIds();
    var g, b, h, a, s := GeneralFaqs(), BookingFaqs(), HostingFaqs(), AccountFaqs(), SupportFaqs();
    IdsAppend(s, []);
    IdsAppend(a, s + []);
    IdsAppend(h, a + (s + []));
    IdsAppend(b, h + (a + (s + [])));
    IdsAppend(g, b + (h + (a + (s + []))));
  }

  /** FAQ ids are unique across all categories. */
  lemma ShippedIdsUnique()
    ensures NoDuplicates(Ids(Flatten(Faqs())))
  {
    ShippedIds();
    hide Faqs, GeneralFaqs, BookingFaqs, HostingFaqs, AccountFaqs, SupportFaqs, Flatten, Ids;
  }

  /** `id` is the id of one of the category buttons. */
  ghost predicate IsButtonId(id: string) {
    exists b :: b in CategoryButtons() && b.id == id
  }

  /** Every category button names a key of `faqs`. */
  lemma ButtonsAreKeys()
    ensures forall b :: b in CategoryButtons() ==> Lookup(Faqs(), b.id).Some?
  {
  }

  /** No category of `faqs` is empty. */
  lemma CategoriesNonEmpty()
    ensures forall c :: c in Faqs() ==> |c.entries| > 0
  {
    GeneralIds();
    BookingIds();
    HostingIds();
    AccountIds();
    SupportIds();
  }

  /** Every category button names a key of `faqs` whose list of entries is not empty. */
  lemma ButtonsNameCategories()
    ensures forall b :: b in CategoryButtons() ==>
              Lookup(Faqs(), b.id).Some? && |Lookup(Faqs(), b.id).value| > 0
  {
    ButtonsAreKeys();
    CategoriesNonEmpty();
    hide Faqs, CategoryButtons;
  }

  lemma {:induction false} IdsAppend(xs: seq<FaqEntry>, ys: seq<FaqEntry>)
    ensures Ids(xs + ys) == Ids(xs) + Ids(ys)
  {
    if |xs| > 0 {
      assert (xs + ys)[1..] == xs[1..] + ys;
      IdsAppend(xs[1..], ys);
    } else {
      assert xs + ys == ys;
    }
  }

  /** The page's state: the three `useState` hooks. */
  class FaqState {
    var searchTerm: string
    var activeCategory: string
    var openQuestions: seq<string>

    /** No id is open twice, and the active category is a button's id. */
    ghost predicate Valid()
      reads this
    {
      NoDuplicates(openQuestions) && IsButtonId(activeCategory)
    }

    /** Initially no search term, the "general" category, nothing open. */
    constructor ()
      ensures Valid()
      ensures searchTerm == "" && activeCategory == "general" && openQuestions == []
    {
      searchTerm := "";
      activeCategory := "general";
      openQuestions := [];
      assert CategoryButtons()[0].id == "general";
    }

    /** `toggleQuestion(questionId)`. */
    method ToggleQuestion(questionId: string)
      requires Valid()
      modifies this
      ensures Valid()
      ensures openQuestions == Toggle(old(openQuestions), questionId)
      ensures searchTerm == old(searchTerm) && activeCategory == old(activeCategory)
    {
      ToggleKeepsNoDuplicates(openQuestions, questionId);
      openQuestions := Toggle(openQuestions, questionId);
    }

    /** The search box's `onChange`. */
    method SetSearchTerm(term: string)
      requires Valid()
      modifies this
      ensures Valid()
      ensures searchTerm == term
      ensures activeCategory == old(activeCategory) && openQuestions == old(openQuestions)
    {
      searchTerm := term;
    }

    /** A category button's `onClick`. */
    method SetActiveCategory(id: string)
      requires Valid() && IsButtonId(id)
      modifies this
      ensures Valid()
      ensures activeCategory == id
      ensures searchTerm == old(searchTerm) && openQuestions == old(openQuestions)
    {
      activeCategory := id;
    }

    /** In a valid state `faqs[activeCategory]` is defined and has entries. */
    lemma ActiveCategoryHasEntries()
      requires Valid()
      ensures Lookup(Faqs(), activeCategory).Some?
      ensures |Lookup(Faqs(), activeCategory).value| > 0
    {
      ButtonsNameCategories();
    }
  }
}
