/**
 * The signed-in layout's sidebar: it renders only with a session, shows the
 * Admin Panel entry only to the "admin" role, writes the avatar initials of
 * the user's name, and highlights the navigation entries whose route the
 * current path lies in. Upper-casing is ASCII only here; JavaScript's full
 * Unicode `toUpperCase` is not part of this model.
 */
module SidebarView {
  import opened Common

  // ---------------------------------------------------------------------------
  // getInitials
  // ---------------------------------------------------------------------------

  /** `s.split(" ")`: the pieces between single spaces; "" gives [""], and two spaces in a row give an empty piece. */
  function Split(s: string): (parts: seq<string>)
    ensures |parts| >= 1
    ensures forall i :: 0 <= i < |parts| ==> ' ' !in parts[i]
  {
    if s == [] then [""]
    else if s[0] == ' ' then [""] + Split(s[1..])
    else
      var rest := Split(s[1..]);
      [[s[0]] + rest[0]] + rest[1..]
  }

  /** `parts.join(" ")` */
  function Join(parts: seq<string>): string
  {
    if parts == [] then ""
    else if |parts| == 1 then parts[0]
    else parts[0] + " " + Join(parts[1..])
  }

  /** Joining the pieces back with spaces gives the name again. */
  lemma {:induction false} SplitJoin(s: string)
    ensures Join(Split(s)) == s
  {
    if s != [] {
      SplitJoin(s[1..]);
      var rest := Split(s[1..]);
      if s[0] == ' ' {
        assert s == " " + s[1..];
      } else if |rest| == 1 {
        assert s == [s[0]] + s[1..];
      } else {
        assert rest == [rest[0]] + rest[1..];
        assert Join(rest) == rest[0] + " " + Join(rest[1..]);
        assert s == [s[0]] + s[1..];
      }
    }
  }

  /** A space splits the name into the pieces of each side. */
  lemma {:induction false} SplitAppend(a: string, b: string)
    ensures Split(a + " " + b) == Split(a) + Split(b)
  {
    if a == [] {
      SplitCons(' ', b);
      assert a + " " + b == [' '] + b;
    } else {
      SplitAppend(a[1..], b);
      SplitAppendStep(a, b);
    }
  }

  lemma SplitAppendStep(a: string, b: string)
    requires a != [] && Split(a[1..] + " " + b) == Split(a[1..]) + Split(b)
    ensures Split(a + " " + b) == Split(a) + Split(b)
  {
    var t := a[1..] + " " + b;
    assert a + " " + b == [a[0]] + t by { assert (a + " " + b)[1..] == t; }
    assert a == [a[0]] + a[1..];
    SplitCons(a[0], t);
    SplitConsAppend(a[0], a[1..], Split(t), Split(b));
  }

  /** The step of SplitAppend, stated over the pieces alone. */
  lemma SplitConsAppend(c: char, u: string, pt: seq<string>, pb: seq<string>)
    requires pt == Split(u) + pb
    ensures (if c == ' ' then [""] + pt else [[c] + pt[0]] + pt[1..]) ==
            Split([c] + u) + pb
  {
    SplitCons(c, u);
    var ru := Split(u);
    if c != ' ' {
      assert pt[0] == ru[0] && pt[1..] == ru[1..] + pb;
    }
  }

  /** One step of the split: a space starts a new piece, any other character joins the first piece. */
  lemma SplitCons(c: char, t: string)
    ensures Split([c] + t) == if c == ' ' then [""] + Split(t) else [[c] + Split(t)[0]] + Split(t)[1..]
  {
    assert ([c] + t)[0] == c && ([c] + t)[1..] == t;
  }

  /** `n => n[0]` joined: the first character of each piece; an empty piece gives undefined, which joins as "". */
  function Heads(parts: seq<string>): (h: string)
    ensures |h| <= |parts|
  {
    if parts == [] then ""
    else (if parts[0] == "" then "" else [parts[0][0]]) + Heads(parts[1..])
  }

  lemma {:induction false} HeadsAppend(p: seq<string>, q: seq<string>)
    ensures Heads(p + q) == Heads(p) + Heads(q)
  {
    if p != [] {
      HeadsAppend(p[1..], q);
      var h := if p[0] == "" then "" else [p[0][0]];
      assert (p + q)[0] == p[0] && (p + q)[1..] == p[1..] + q;
      assert Heads(p + q) == h + Heads(p[1..] + q);
      assert Heads(p) == h + Heads(p[1..]);
    } else {
      assert p + q == q;
    }
  }

  /** `getInitials`: the upper-cased first letters of the space-separated pieces. */
  function Initials(name: string): string
  {
    Upper(Heads(Split(name)))
  }

  lemma UpperAppend(a: string, b: string)
    ensures Upper(a + b) == Upper(a) + Upper(b)
  {
  }

  /** The initials of two names joined by a space are the initials of each, one after the other. */
  lemma InitialsAppend(a: string, b: string)
    ensures Initials(a + " " + b) == Initials(a) + Initials(b)
  {
    SplitAppend(a, b);
    HeadsAppend(Split(a), Split(b));
    UpperAppend(Heads(Split(a)), Heads(Split(b)));
  }

  /** A name without spaces gives one initial, its first letter upper-cased; an empty name gives none. */
  lemma {:induction false} SingleWordInitial(word: string)
    requires ' ' !in word
    ensures Initials(word) == if word == "" then "" else [UpperChar(word[0])]
  {
    if word != "" {
      SingleWordSplit(word);
    }
  }

  lemma {:induction false} SingleWordSplit(word: string)
    requires ' ' !in word
    ensures Split(word) == [word]
  {
    if word != [] {
      assert ' ' !in word[1..] by {
        forall i | 0 <= i < |word[1..]| ensures word[1..][i] != ' ' { assert word[1..][i] == word[i + 1]; }
      }
      SingleWordSplit(word[1..]);
      assert word == [word[0]] + word[1..];
    }
  }

  /** There are never more initials than space-separated pieces. */
  lemma InitialsAtMostPieces(name: string)
    ensures |Initials(name)| <= |Split(name)|
  {
  }

  // ---------------------------------------------------------------------------
  // Navigation
  // ---------------------------------------------------------------------------

  datatype NavItem = NavItem(name: string, href: string, show: bool)

  /** The three entries, the last one shown only when the session role is exactly "admin". */
  function Navigation(role: string): (nav: seq<NavItem>)
    ensures |nav| == 3
    ensures nav[0].show && nav[1].show
    ensures nav[2].href == "/admin" && (nav[2].show <==> role == "admin")
  {
    [NavItem("Dashboard", "/dashboard", true),
     NavItem("My Stats", "/dashboard/stats", true),
     NavItem("Admin Panel", "/admin", role == "admin")]
  }

  /** The entries rendered: those with `show`, in order. */
  function Shown(nav: seq<NavItem>): (r: seq<NavItem>)
    ensures forall x :: x in r <==> x in nav && x.show
  {
    if nav == [] then []
    else (if nav[0].show then [nav[0]] else []) + Shown(nav[1..])
  }

  /** The Admin Panel is rendered iff the role is "admin"; "ADMIN" does not match. */
  lemma AdminPanelShownIffAdmin(role: string)
    ensures (exists x :: x in Shown(Navigation(role)) && x.href == "/admin") <==> role == "admin"
  {
    var nav := Navigation(role);
    if role == "admin" {
      assert nav[2] in Shown(nav);
    } else {
      forall x | x in Shown(nav) ensures x.href != "/admin" {
        assert x == nav[0] || x == nav[1];
      }
    }
  }

  /** The session's user as the sidebar reads it. */
  datatype SessionUser = SessionUser(name: string, role: string, contractPercentage: int)

  datatype Sidebar = Sidebar(initials: string, entries: seq<NavItem>)

  /** The layout: nothing without a session, else the initials and the entries shown. */
  function Render(session: Option<SessionUser>): (r: Option<Sidebar>)
    ensures r.None? <==> session.None?
    ensures r.Some? ==> r.value.initials == Initials(session.value.name)
    ensures r.Some? ==> r.value.entries == Shown(Navigation(session.value.role))
    ensures r.Some? ==> |r.value.entries| == (if session.value.role == "admin" then 3 else 2)
  {
    if session.None? then None
    else
      var nav := Navigation(session.value.role);
      ShownOfThree(nav);
      Some(Sidebar(Initials(session.value.name), Shown(nav)))
  }

  lemma ShownOfThree(nav: seq<NavItem>)
    requires |nav| == 3 && nav[0].show && nav[1].show
    ensures Shown(nav) == [nav[0], nav[1]] + (if nav[2].show then [nav[2]] else [])
  {
    assert nav[1..][1..] == [nav[2]] && nav[1..][1..][1..] == [];
    assert Shown([nav[2]]) == if nav[2].show then [nav[2]] else [];
    assert Shown(nav[1..]) == [nav[1]] + Shown([nav[2]]);
  }

  /** `isActive`: the path is the entry's route or lies below it. */
  predicate IsActive(pathname: string, href: string)
  {
    pathname == href || StartsWith(pathname, href + "/")
  }

  /** A route is active on the pages below it but not on a path that only shares its prefix. */
  lemma ActiveOnSubpathsOnly(href: string, rest: string)
    requires rest != "" && rest[0] != '/'
    ensures IsActive(href + "/" + rest, href)
    ensures !IsActive(href + rest, href)
  {
    assert (href + "/" + rest)[..|href + "/"|] == href + "/";
    var p := href + rest;
    assert p[|href|] == rest[0] && (href + "/")[|href|] == '/';
    DiffersAt(p, href + "/", |href|);
  }

  /** On "/dashboard/stats" both the Dashboard and the My Stats entries are highlighted. */
  lemma StatsPageHighlightsBoth()
    ensures IsActive("/dashboard/stats", "/dashboard") && IsActive("/dashboard/stats", "/dashboard/stats")
    ensures !IsActive("/dashboardx", "/dashboard")
  {
    ActiveOnSubpathsOnly("/dashboard", "stats");
    assert "/dashboard" + "/" + "stats" == "/dashboard/stats";
    ActiveOnSubpathsOnly("/dashboard", "x");
    assert "/dashboard" + "x" == "/dashboardx";
  }
}
