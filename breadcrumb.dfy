/**
 * The admin pages' breadcrumb: the location's path is cut into segments, each segment
 * gets a label, and the trail is "Home" followed by one item per segment, each linking
 * to the path up to and including its segment. Only the last item is not a link.
 */
module Breadcrumb {
  import opened Text

  /** One breadcrumb entry: a label and the path it leads to. */
  datatype Item = Item(name: string, path: string)

  /** What the component renders: nothing, a trail, or an error thrown while building it. */
  datatype Trail = Hidden | Shown(items: seq<Item>) | Throws

  /** `.filter((x) => x)`: the non-empty pieces, in order. */
  function NonEmptyPieces(pieces: seq<string>): (r: seq<string>)
    ensures |r| <= |pieces|
    ensures forall i :: 0 <= i < |r| ==> r[i] != "" && r[i] in pieces
    decreases |pieces|
  {
    if pieces == [] then []
    else (if pieces[0] != "" then [pieces[0]] else []) + NonEmptyPieces(pieces[1..])
  }

  /** Pieces none of which is empty pass the filter unchanged. */
  lemma {:induction false} NonEmptyPiecesKeepsAll(pieces: seq<string>)
    requires forall i :: 0 <= i < |pieces| ==> pieces[i] != ""
    ensures NonEmptyPieces(pieces) == pieces
    decreases |pieces|
  {
    if pieces != [] {
      NonEmptyPiecesKeepsAll(pieces[1..]);
      assert pieces == [pieces[0]] + pieces[1..];
    }
  }

  /** `location.pathname.split("/").filter((x) => x)`. */
  function Segments(pathname: string): (segs: seq<string>)
    ensures forall i :: 0 <= i < |segs| ==> segs[i] != "" && '/' !in segs[i]
  {
    NonEmptyPieces(Split(pathname, '/'))
  }

  /** `segment.split("-").map(capitalise).join(" ")`, the label of an ordinary segment. */
  function DefaultName(segment: string): string {
    Join(CapitalizeAll(Split(segment, '-')), " ")
  }

  function CapitalizeAll(words: seq<string>): (r: seq<string>)
    ensures |r| == |words|
    ensures forall i :: 0 <= i < |words| ==> r[i] == Capitalize(words[i])
  {
    seq(|words|, i requires 0 <= i < |words| => Capitalize(words[i]))
  }

  /**
   * The same label stated character by character: each hyphen becomes a space, and the
   * first character and every character after a hyphen are upper-cased.
   */
  function TitleCase(s: string): (r: string)
    ensures |r| == |s|
  {
    seq(|s|, i requires 0 <= i < |s| =>
      if s[i] == '-' then ' '
      else if i == 0 || s[i - 1] == '-' then UpperChar(s[i])
      else s[i])
  }

  lemma CapitalizeIsTitleCase(word: string)
    requires '-' !in word
    ensures Capitalize(word) == TitleCase(word)
  {
    if word != "" {
      forall i | 0 <= i < |word|
        ensures Capitalize(word)[i] == TitleCase(word)[i]
      {
        if i > 0 {
          assert Capitalize(word)[i] == word[1..][i - 1];
          assert word[i - 1] != '-';
        }
      }
    }
  }

  lemma TitleCaseAtHyphen(w: string, rest: string)
    ensures TitleCase(w + "-" + rest) == TitleCase(w) + " " + TitleCase(rest)
  {
    var s := w + "-" + rest;
    var lhs, rhs := TitleCase(s), TitleCase(w) + " " + TitleCase(rest);
    forall i | 0 <= i < |s|
      ensures lhs[i] == rhs[i]
    {
      if i > |w| {
        assert s[i] == rest[i - |w| - 1];
        if i > |w| + 1 {
          assert s[i - 1] == rest[i - |w| - 2];
        }
      } else if i < |w| {
        assert s[i] == w[i];
        if i > 0 {
          assert s[i - 1] == w[i - 1];
        }
      }
    }
  }

  /** Cutting a segment at its first hyphen cuts its default label at a space. */
  lemma DefaultNameAtHyphen(segment: string, k: nat)
    requires k < |segment| && k == IndexOf(segment, '-')
    ensures DefaultName(segment) == Capitalize(segment[..k]) + " " + DefaultName(segment[k + 1..])
  {
    var w, tail := segment[..k], Split(segment[k + 1..], '-');
    assert Split(segment, '-') == [w] + tail;
    CapitalizeAllCons(w, tail);
    JoinCons(Capitalize(w), CapitalizeAll(tail), " ");
  }

  lemma CapitalizeAllCons(w: string, tail: seq<string>)
    ensures CapitalizeAll([w] + tail) == [Capitalize(w)] + CapitalizeAll(tail)
  {
    var lhs, rhs := CapitalizeAll([w] + tail), [Capitalize(w)] + CapitalizeAll(tail);
    forall i | 0 <= i < |lhs|
      ensures lhs[i] == rhs[i]
    {
      if i > 0 {
        assert ([w] + tail)[i] == tail[i - 1];
      }
    }
  }

  /** The split/capitalise/join label is the character-by-character one. */
  lemma {:induction false} DefaultNameIsTitleCase(segment: string)
    ensures DefaultName(segment) == TitleCase(segment)
    decreases |segment|
  {
    var k := IndexOf(segment, '-');
    if k == |segment| {
      CapitalizeIsTitleCase(segment);
    } else {
      var w, rest := segment[..k], segment[k + 1..];
      DefaultNameAtHyphen(segment, k);
      DefaultNameIsTitleCase(rest);
      CapitalizeIsTitleCase(w);
      assert segment == w + "-" + rest;
      TitleCaseAtHyphen(w, rest);
    }
  }

  /**
   * The parent segment's label after "Add "/"Edit " as written:
   * `parent.charAt(0).toUpperCase() + parent.slice(1, -1)`, dropping the last character
   * to turn a plural into a singular.
   */
  function ParentLabel(parent: string): string {
    (if parent == "" then "" else [UpperChar(parent[0])]) + (if |parent| >= 2 then parent[1..|parent| - 1] else "")
  }

  /** Dropping one character misnames the company pages: "companies" becomes "Companie". */
  lemma ParentLabelOfCompanies()
    ensures ParentLabel("companies") == "Companie"
    ensures ParentLabel("products") == "Product" && ParentLabel("offers") == "Offer"
  {
    assert "companies"[1..8] == "ompanie";
    assert "products"[1..7] == "roduct";
    assert "offers"[1..5] == "ffer";
  }

  /** The singular the label means: a final "ies" becomes "y", otherwise a final "s" is dropped. */
  function SingularLabel(parent: string): (r: string)
    ensures |parent| >= 2 && parent[|parent| - 1] == 's' && !EndsWithIes(parent) ==> r == ParentLabel(parent)
  {
    if EndsWithIes(parent) then Capitalize(parent[..|parent| - 3]) + "y"
    else ParentLabel(parent)
  }

  predicate EndsWithIes(s: string) {
    |s| >= 4 && s[|s| - 3..] == "ies"
  }

  /** Each parent page the application routes "add"/"edit" under gets its singular name. */
  lemma SingularLabelOfParents()
    ensures SingularLabel("companies") == "Company"
    ensures SingularLabel("products") == "Product"
    ensures SingularLabel("offers") == "Offer"
  {
    ParentLabelOfCompanies();
    assert EndsWithIes("companies") by { assert "companies"[6..] == "ies"; }
    assert "companies"[..6] == "compan";
    assert UpperChar('c') == 'C';
    assert Capitalize("compan") == "Compan" by { assert "compan"[1..] == "ompan"; }
    assert "Compan" + "y" == "Company";
    assert !EndsWithIes("products") by { assert "products"[5..] == "cts"; }
    assert !EndsWithIes("offers") by { assert "offers"[3..] == "ers"; }
  }

  predicate IsAction(segment: string) {
    segment == "add" || segment == "edit"
  }

  /** An "add"/"edit" first segment has no parent: reading its label throws. */
  predicate ThrowsOn(segs: seq<string>) {
    |segs| > 0 && IsAction(segs[0])
  }

  /**
   * The label of segment `i` once the name an "add"/"edit" segment gives its parent is
   * known: a fixed one, the action on that parent, or the default.
   */
  function SegmentLabel(segs: seq<string>, i: int, parentName: string): string
    requires 0 <= i < |segs|
  {
    var segment := segs[i];
    if segment == "admin" then "Admin Dashboard"
    else if segment == "companies" then "Companies"
    else if segment == "products" then "Products"
    else if segment == "offers" then "Offers"
    else if segment == "add" then "Add " + parentName
    else if segment == "edit" then "Edit " + parentName
    else DefaultName(segment)
  }

  /** The label of segment `i` as the component writes it, with `slice(1, -1)` on the parent. */
  function Label(segs: seq<string>, i: int): string
    requires 0 <= i < |segs| && (i > 0 || !IsAction(segs[0]))
  {
    SegmentLabel(segs, i, if i > 0 then ParentLabel(segs[i - 1]) else "")
  }

  /** The label meant for segment `i`: the parent's proper singular after "Add "/"Edit ". */
  function IntendedLabel(segs: seq<string>, i: int): string
    requires 0 <= i < |segs| && (i > 0 || !IsAction(segs[0]))
  {
    SegmentLabel(segs, i, if i > 0 then SingularLabel(segs[i - 1]) else "")
  }

  /**
   * The written and the intended label differ exactly on an "add"/"edit" segment whose
   * parent ends in "ies".
   */
  lemma LabelsDifferOnlyAtIes(segs: seq<string>, i: int)
    requires 0 <= i < |segs| && (i > 0 || !IsAction(segs[0]))
    ensures Label(segs, i) != IntendedLabel(segs, i) <==> IsAction(segs[i]) && EndsWithIes(segs[i - 1])
  {
    if IsAction(segs[i]) && EndsWithIes(segs[i - 1]) {
      var parent := segs[i - 1];
      assert |ParentLabel(parent)| == |parent| - 1;
      assert |SingularLabel(parent)| == |parent| - 2;
    }
  }

  /** The path of the trail's item `i`: "/" and the first `i` segments joined by "/". */
  function PathTo(segs: seq<string>, i: int): string
    requires 0 <= i <= |segs|
  {
    "/" + Join(segs[..i], "/")
  }

  /** The item for segment `i`: its label, linking to the path up to and including it. */
  function CrumbAt(segs: seq<string>, i: int): Item
    requires 0 <= i < |segs| && !ThrowsOn(segs)
  {
    Item(Label(segs, i), PathTo(segs, i + 1))
  }

  /** "Home" followed by the items of the first `n` segments. */
  function CrumbsUpTo(segs: seq<string>, n: int): (items: seq<Item>)
    requires 0 <= n <= |segs| && (n == 0 || !ThrowsOn(segs))
    ensures |items| == n + 1 && items[0] == Item("Home", "/")
    ensures forall j :: 0 <= j < n ==> items[j + 1] == CrumbAt(segs, j)
  {
    if n == 0 then [Item("Home", "/")]
    else
      var before := CrumbsUpTo(segs, n - 1);
      var last := CrumbAt(segs, n - 1);
      AppendKeeps(before, last);
      before + [last]
  }

  /** Appending an item keeps every earlier item in place. */
  lemma AppendKeeps(before: seq<Item>, last: Item)
    ensures forall j :: 0 <= j < |before| ==> (before + [last])[j] == before[j]
    ensures (before + [last])[|before|] == last
  {
  }

  /** The items of a trail that does not throw: "Home", then one per segment. */
  function Crumbs(segs: seq<string>): (items: seq<Item>)
    requires !ThrowsOn(segs)
    ensures |items| == |segs| + 1 && items[0] == Item("Home", "/")
    ensures forall j :: 0 <= j < |segs| ==> items[j + 1] == CrumbAt(segs, j)
  {
    CrumbsUpTo(segs, |segs|)
  }

  /** The trail the component is meant to build: the same items with the intended labels. */
  function IntendedCrumbs(segs: seq<string>): (items: seq<Item>)
    requires !ThrowsOn(segs)
    ensures |items| == |segs| + 1 && items[0] == Item("Home", "/")
    ensures forall j :: 0 <= j < |segs| ==> items[j + 1] == Item(IntendedLabel(segs, j), PathTo(segs, j + 1))
  {
    [Item("Home", "/")] + seq(|segs|, j requires 0 <= j < |segs| => Item(IntendedLabel(segs, j), PathTo(segs, j + 1)))
  }

  /**
   * Item `j + 1` of the two trails, the one for segment `j`: the same path, and names that
   * differ exactly at "add"/"edit" under a parent ending in "ies" (never at the first segment).
   */
  lemma CrumbsAgreeAt(segs: seq<string>, j: int)
    requires !ThrowsOn(segs) && 0 <= j < |segs|
    ensures IntendedCrumbs(segs)[j + 1].path == Crumbs(segs)[j + 1].path
    ensures IntendedCrumbs(segs)[j + 1].name != Crumbs(segs)[j + 1].name <==>
      j > 0 && IsAction(segs[j]) && EndsWithIes(segs[j - 1])
  {
    assert Crumbs(segs)[j + 1] == CrumbAt(segs, j);
    if j == 0 {
      assert Label(segs, 0) == SegmentLabel(segs, 0, "") == IntendedLabel(segs, 0);
    } else {
      LabelsDifferOnlyAtIes(segs, j);
    }
  }

  /**
   * The trail as written and the intended trail link to the same paths, and the names
   * of item `k` (the one for segment `k - 1`) differ exactly at "add"/"edit" under a
   * parent ending in "ies"; Home and the first segment's item always agree.
   */
  lemma IntendedTrailDiffersOnlyAtIes(segs: seq<string>)
    requires !ThrowsOn(segs)
    ensures |IntendedCrumbs(segs)| == |Crumbs(segs)|
    ensures forall j :: 0 <= j <= |segs| ==> IntendedCrumbs(segs)[j].path == Crumbs(segs)[j].path
    ensures forall k :: 0 < k <= |segs| ==>
      (IntendedCrumbs(segs)[k].name != Crumbs(segs)[k].name <==>
         k > 1 && IsAction(segs[k - 1]) && EndsWithIes(segs[k - 2]))
  {
    forall k | 0 < k <= |segs|
      ensures IntendedCrumbs(segs)[k].path == Crumbs(segs)[k].path
      ensures IntendedCrumbs(segs)[k].name != Crumbs(segs)[k].name <==>
        k > 1 && IsAction(segs[k - 1]) && EndsWithIes(segs[k - 2])
    {
      CrumbsAgreeAt(segs, k - 1);
    }
  }

  /** What `Breadcrumb` renders for a location. */
  function TrailOf(pathname: string): Trail {
    if pathname == "/" then Hidden
    else if ThrowsOn(Segments(pathname)) then Throws
    else Shown(Crumbs(Segments(pathname)))
  }

  /**
   * The component's `forEach`: walk the segments, extending the current path by
   * "/segment" and pushing one item per segment after "Home".
   */
  method BuildTrail(pathname: string) returns (trail: Trail)
    ensures trail == TrailOf(pathname)
  {
    var segs := Segments(pathname);
    if pathname == "/" {
      return Hidden;
    }
    var items := [Item("Home", "/")];
    var currentPath := "";
    var index := 0;
    while index < |segs|
      invariant 0 <= index <= |segs|
      invariant index == 0 ==> currentPath == ""
      invariant index > 0 ==> currentPath == PathTo(segs, index) && !ThrowsOn(segs)
      invariant items == CrumbsUpTo(segs, index)
    {
      var segment := segs[index];
      if index == 0 && IsAction(segment) {
        return Throws;
      }
      if index == 0 {
        assert segs[..1] == [segment];
      } else {
        PathToExtends(segs, index);
      }
      currentPath := currentPath + "/" + segment;
      items := items + [Item(Label(segs, index), currentPath)];
      index := index + 1;
    }
    trail := Shown(items);
  }

  /** The breadcrumb is hidden on the landing page only. */
  lemma HiddenOnlyOnLanding(pathname: string)
    ensures TrailOf(pathname).Hidden? <==> pathname == "/"
  {
  }

  /** Each item's path extends the previous item's path. */
  lemma PathsNest(pathname: string)
    requires TrailOf(pathname).Shown?
    ensures var items := TrailOf(pathname).items;
      forall i :: 0 <= i < |items| - 1 ==> items[i].path <= items[i + 1].path
  {
    var segs := Segments(pathname);
    var items := TrailOf(pathname).items;
    assert items == Crumbs(segs);
    forall i | 0 <= i < |items| - 1
      ensures items[i].path <= items[i + 1].path
    {
      assert items[i + 1] == CrumbAt(segs, i);
      if i > 0 {
        assert items[i] == CrumbAt(segs, i - 1);
        PathToExtends(segs, i);
      }
    }
  }

  /** The path of one more segment is the previous path, "/" and that segment. */
  lemma PathToExtends(segs: seq<string>, i: int)
    requires 0 < i < |segs|
    ensures PathTo(segs, i + 1) == PathTo(segs, i) + "/" + segs[i]
  {
    assert segs[..i + 1] == segs[..i] + [segs[i]];
    JoinSnoc(segs[..i], segs[i], "/");
  }

  /** A path written as "/" followed by its segments cuts back into those segments. */
  lemma SegmentsOfJoin(segs: seq<string>)
    requires segs != []
    requires forall i :: 0 <= i < |segs| ==> segs[i] != "" && '/' !in segs[i]
    ensures Segments("/" + Join(segs, "/")) == segs
  {
    var joined := Join(segs, ['/']);
    var pathname := "/" + joined;
    assert pathname == [] + ['/'] + joined;
    IndexOfFirst([], joined, '/');
    assert pathname[..0] == "" && pathname[1..] == joined;
    assert Split(pathname, '/') == [""] + Split(joined, '/');
    SplitJoin(segs, '/');
    NonEmptyPiecesKeepsAll(segs);
    assert ([""] + segs)[1..] == segs;
  }

  /** The last item of a trail links to the path of all its segments. */
  lemma LastCrumbPath(segs: seq<string>)
    requires segs != [] && !ThrowsOn(segs)
    ensures Crumbs(segs)[|segs|].path == "/" + Join(segs, "/")
  {
    assert Crumbs(segs)[|segs|] == Item(Label(segs, |segs| - 1), PathTo(segs, |segs|));
    assert segs[..|segs|] == segs;
  }

  /** For a path written as "/" followed by its segments, the trail's last item is the page itself. */
  lemma LastItemIsPage(segs: seq<string>)
    requires segs != [] && !ThrowsOn(segs)
    requires forall i :: 0 <= i < |segs| ==> segs[i] != "" && '/' !in segs[i]
    ensures var pathname := "/" + Join(segs, "/");
      && TrailOf(pathname) == Shown(Crumbs(segs))
      && Crumbs(segs)[|segs|].path == pathname
  {
    SegmentsOfJoin(segs);
    assert |Join(segs, "/")| >= |segs[0]| > 0;
    LastCrumbPath(segs);
  }

  /** The page for adding a company is labelled "Add Companie" as written, "Add Company" as intended. */
  lemma AddCompanyLabels()
    ensures Label(["admin", "companies", "add"], 2) == "Add Companie"
    ensures IntendedLabel(["admin", "companies", "add"], 2) == "Add Company"
  {
    ParentLabelOfCompanies();
    SingularLabelOfParents();
  }

  /** "/admin/companies/add" is "/" followed by its three segments joined by "/". */
  lemma AddCompanyPath()
    ensures "/" + Join(["admin", "companies", "add"], "/") == "/admin/companies/add"
    ensures PathTo(["admin", "companies", "add"], 3) == "/admin/companies/add"
  {
    var segs := ["admin", "companies", "add"];
    assert Join(segs[2..], "/") == "add";
    assert Join(segs[1..], "/") == "companies/add";
    assert segs[..3] == segs;
  }

  /** The page for adding a company, routed at `/admin/companies/add`, ends with that label in each trail. */
  lemma AddCompanyTrail()
    ensures var segs := ["admin", "companies", "add"];
      && TrailOf("/admin/companies/add") == Shown(Crumbs(segs))
      && Crumbs(segs)[3] == Item("Add Companie", "/admin/companies/add")
      && IntendedCrumbs(segs)[3] == Item("Add Company", "/admin/companies/add")
  {
    var segs := ["admin", "companies", "add"];
    AddCompanyPath();
    LastItemIsPage(segs);
    AddCompanyLabels();
    assert Crumbs(segs)[3] == CrumbAt(segs, 2);
  }

  /** How a trail item is drawn: a link, or plain text for the current page. */
  datatype Crumb = Link(text: string, to: string) | Current(text: string)

  /** `breadcrumbItems.map(...)`: every item but the last is a link. */
  function Render(items: seq<Item>): (crumbs: seq<Crumb>)
    ensures |crumbs| == |items|
    ensures forall i :: 0 <= i < |items| ==> (crumbs[i].Current? <==> i == |items| - 1)
    ensures forall i :: 0 <= i < |items| ==> crumbs[i].text == items[i].name
    ensures forall i :: 0 <= i < |items| - 1 ==> crumbs[i].to == items[i].path
  {
    seq(|items|, i requires 0 <= i < |items| =>
      if i < |items| - 1 then Link(items[i].name, items[i].path) else Current(items[i].name))
  }
}
