/** The release status of an entry and the precedence that derives it. */
module Classification {
  import opened Options
  import V = Versions

  datatype Status = Unreleased | Yanked | Prereleased | Released

  /** Derives the status from the extracted id and the yanked marker, first match
      winning: the `Unreleased` token, then the marker, then a pre-release segment
      in the id; anything else is an ordinary release. Only the id is inspected
      for a pre-release hyphen, never the rest of the header line. */
  function Classify(id: string, yanked: bool): (s: Status)
    ensures s == Unreleased <==> id == V.UnreleasedToken
    ensures s == Yanked <==> id != V.UnreleasedToken && yanked
    ensures s == Prereleased <==> id != V.UnreleasedToken && !yanked && V.HyphenBeforePlus(id)
    ensures s == Released <==> id != V.UnreleasedToken && !yanked && !V.HyphenBeforePlus(id)
  {
    V.HasPrereleaseIff(id);
    if id == V.UnreleasedToken then Unreleased
    else if yanked then Yanked
    else if V.HasPrerelease(id) then Prereleased
    else Released
  }

  /** The status of a well-formed version token in terms of its structure:
      `Unreleased` only for the token itself, the marker wins over everything
      else, and otherwise a pre-release segment decides. */
  lemma StatusOfVersion(v: V.Version, yanked: bool)
    requires v.WellFormed()
    ensures Classify(v.Text(), yanked) == Unreleased <==> v.Unreleased?
    ensures Classify(v.Text(), yanked) == Yanked <==> v.Numbered? && yanked
    ensures Classify(v.Text(), yanked) == Prereleased <==> v.Numbered? && !yanked && v.pre.Some?
    ensures Classify(v.Text(), yanked) == Released <==> v.Numbered? && !yanked && v.pre.None?
  {
    if v.Numbered? {
      V.NumberedIsNotUnreleased(v);
      V.PrereleaseOfVersion(v);
      V.HasPrereleaseIff(v.Text());
    }
  }

  /** Writing a `v` before a numbered token does not change its status. */
  lemma PrefixKeepsStatus(core: string, pre: Option<string>, build: Option<string>, yanked: bool)
    requires V.Numbered(false, core, pre, build).WellFormed()
    ensures Classify(V.Numbered(true, core, pre, build).Text(), yanked)
            == Classify(V.Numbered(false, core, pre, build).Text(), yanked)
  {
    StatusOfVersion(V.Numbered(true, core, pre, build), yanked);
    StatusOfVersion(V.Numbered(false, core, pre, build), yanked);
  }
}
