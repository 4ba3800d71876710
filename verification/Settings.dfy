/** The two username fields of the settings form: what is stored from what is typed,
    and what the form shows for what is stored. */
module Settings {
  import opened Text

  const TWITTER := "https://twitter.com/"
  const SOUNDCLOUD := "https://soundcloud.com/"

  function Stored(raw: string, site: string): string {
    TrimPrefix(TrimPrefix(TrimSpace(raw), site), "@")
  }

  /** A typed text laid out as spaces, perhaps the address, perhaps one '@', the name, and
      spaces again; address and '@' are missing only where they do not stand. */
  predicate Layout(raw: string, site: string, name: string, lead: string, address: string, at: string, tail: string) {
    && raw == lead + (address + (at + name)) + tail
    && AllSpace(lead) && AllSpace(tail) && Trimmed(address + (at + name))
    && (address == site || (address == "" && !HasPrefix(at + name, site)))
    && (at == "@" || (at == "" && !HasPrefix(name, "@")))
  }

  ghost predicate Cleaned(raw: string, site: string, name: string) {
    exists lead, address, at, tail :: Layout(raw, site, name, lead, address, at, tail)
  }

  lemma {:induction false} PrefixOff(s: string, p: string) returns (q: string)
    ensures s == q + TrimPrefix(s, p)
    ensures q == p || (q == "" && !HasPrefix(TrimPrefix(s, p), p))
  {
    q := if HasPrefix(s, p) then p else "";
  }

  lemma {:induction false} PrefixOffUnique(q: string, t: string, p: string)
    requires q == p || (q == "" && !HasPrefix(t, p))
    ensures TrimPrefix(q + t, p) == t
  {
    if q == "" { assert q + t == t; }
  }

  /** Every typed text has exactly one layout's name, and that is what is stored. */
  lemma {:induction false} CleanedExactly(raw: string, site: string, name: string)
    ensures Cleaned(raw, site, name) <==> name == Stored(raw, site)
  {
    hide TrimSpace, AllSpace, Trimmed, TrimPrefix, HasPrefix;
    if lead, address, at, tail :| Layout(raw, site, name, lead, address, at, tail) {
      TrimUnique(lead, address + (at + name), tail);
      PrefixOffUnique(address, at + name, site);
      PrefixOffUnique(at, name, "@");
    }
    if name == Stored(raw, site) {
      var lead, tail := TrimSpaceSpec(raw);
      var address := PrefixOff(TrimSpace(raw), site);
      var at := PrefixOff(TrimPrefix(TrimSpace(raw), site), "@");
      assert Layout(raw, site, name, lead, address, at, tail);
    }
  }

  /** The stored name is the one that lies, in what was typed, between the spaces and
      behind the site's address and one '@', where these stand. */
  method Normalise(raw: string, site: string) returns (name: string)
    ensures Cleaned(raw, site, name)
    ensures forall other :: Cleaned(raw, site, other) ==> other == name
  {
    hide Cleaned;
    name := TrimSpace(raw);
    name := TrimPrefix(name, site);
    name := TrimPrefix(name, "@");
    CleanedExactly(raw, site, name);
    forall other | Cleaned(raw, site, other) ensures other == name {
      CleanedExactly(raw, site, other);
    }
  }

  /** What the form shows: nothing, or the full address. */
  function Rendered(name: string, site: string): string {
    if name == "" then "" else site + name
  }

  /** Submitting the form as it was rendered. */
  function Resaved(name: string, site: string): string {
    Stored(Rendered(name, site), site)
  }

  predicate EndsClean(s: string) {
    s != "" ==> !IsSpace(s[|s| - 1])
  }

  function LeadingAts(s: string): nat {
    if s != "" && s[0] == '@' then 1 + LeadingAts(s[1..]) else 0
  }

  /** Whatever is typed, what is stored does not end in a space. */
  lemma {:induction false} StoredEndsClean(raw: string, site: string)
    ensures EndsClean(Stored(raw, site))
  {
    var a, b := TrimSpaceSpec(raw);
  }

  lemma {:induction false} ResavedDropsOneAt(name: string, site: string)
    requires site in {TWITTER, SOUNDCLOUD} && EndsClean(name)
    ensures Resaved(name, site) == TrimPrefix(name, "@")
    ensures EndsClean(Resaved(name, site))
  {
    if name != "" {
      var r := site + name;
      assert r[0] == 'h' && r[|r| - 1] == name[|name| - 1];
      TrimmedStays(r);
      assert r[|site|..] == name;
    }
  }

  /** Saving the form unchanged keeps a stored name exactly when it has no leading '@'. */
  lemma {:induction false} ResavedIsIdentity(name: string, site: string)
    requires site in {TWITTER, SOUNDCLOUD} && EndsClean(name)
    ensures Resaved(name, site) == name <==> LeadingAts(name) == 0
  {
    ResavedDropsOneAt(name, site);
    if LeadingAts(name) > 0 {
      assert |name[1..]| < |name|;
    }
  }

  function Resave(name: string, site: string, times: nat): string
    decreases times
  {
    if times == 0 then name else Resave(Resaved(name, site), site, times - 1)
  }

  /** Repeated saves settle, and not before the last leading '@' is gone. */
  lemma {:induction false} ResavesSettle(name: string, site: string, times: nat)
    requires site in {TWITTER, SOUNDCLOUD} && EndsClean(name)
    ensures Resaved(Resave(name, site, times), site) == Resave(name, site, times) <==> times >= LeadingAts(name)
    decreases times
  {
    ResavedDropsOneAt(name, site);
    ResavedIsIdentity(name, site);
    if times > 0 {
      ResavesSettle(Resaved(name, site), site, times - 1);
      if LeadingAts(name) > 0 {
        assert "@" <= name;
      }
    }
  }
}
