/**
  `cacheLookupFor`: which requests the response cache may answer, and the text
  whose SHA-256 digest is their key. Two requests share the text exactly when
  they agree on the virtual API key, the forwarded URL and every option that
  does not steer caching itself.
 */
module CacheKey {
  import opened Common
  import opened CanonicalJson
  import opened CanonicalProofs

  /** The facts `cacheLookupFor` reads; pattern and header tests arrive as their results. */
  datatype Request = Request(
    isPost: bool,
    isScrapePath: bool,
    apiKeyId: Option<text>,
    upstreamUrl: text,
    startsOnCloud: bool,
    needsCloud: bool,
    hasSensitiveHeaders: bool,
    hasPrivateTargetUrl: bool,
    forbidsCaching: bool,
    bodyLength: nat,
    body: Option<Json>)

  /** `material` is what is hashed; `maxAge` the request's own age limit as a number text. */
  datatype Lookup = Lookup(material: text, maxAge: Option<text>)

  const MAX_INSPECTED_BODY_BYTES: nat := 65536
  const NEWLINE: unit := 10

  function Units(s: string): (t: text)
    ensures |t| == |s| && forall i :: 0 <= i < |s| && s[i] as int < 0x10000 ==> t[i] as int == s[i] as int
  {
    seq(|s|, i requires 0 <= i < |s| => s[i] as int % 0x10000)
  }

  function Member(fields: Fields, name: text): Option<Json> {
    match fields
    case NoFields => None
    case Field(n, value, tail) => if n == name then Some(value) else Member(tail, name)
  }

  predicate HasUncacheableField(fields: Fields) {
    || Member(fields, Units("actions")).Some?
    || Member(fields, Units("headers")).Some?
    || Member(fields, Units("profile")).Some?
    || Member(fields, Units("changeTracking")).Some?
    || Member(fields, Units("lockdown")).Some?
    || Member(fields, Units("minAge")).Some?
  }

  /** A field that steers the cache and leaves the result alone. */
  ghost predicate IsControl(name: text) {
    name == Units("maxAge") || name == Units("storeInCache")
  }

  function WithoutControls(fields: Fields): Fields {
    match fields
    case NoFields => NoFields
    case Field(name, value, tail) =>
      if name == Units("maxAge") || name == Units("storeInCache") then WithoutControls(tail)
      else Field(name, value, WithoutControls(tail))
  }

  function Material(id: text, url: text, fields: Fields): text {
    id + [NEWLINE] + url + [NEWLINE] + Canonical(Obj(WithoutControls(fields)))
  }

  /** An absent `maxAge`, or a finite number other than zero. */
  predicate AcceptableMaxAge(maxAge: Option<Json>) {
    maxAge.None? || (maxAge.value.Num? && maxAge.value.digits != Units("0"))
  }

  function LookupFor(r: Request): Option<Lookup> {
    if !r.isPost || !r.isScrapePath then None
    else if r.apiKeyId.None? || r.apiKeyId.value == [] then None
    else if !r.startsOnCloud || r.needsCloud then None
    else if r.hasSensitiveHeaders || r.hasPrivateTargetUrl then None
    else if r.forbidsCaching then None
    else if r.bodyLength == 0 || r.bodyLength > MAX_INSPECTED_BODY_BYTES then None
    else if r.body.None? || !r.body.value.Obj? then None
    else
      var fields := r.body.value.fields;
      var url := Member(fields, Units("url"));
      var maxAge := Member(fields, Units("maxAge"));
      if url.None? || !url.value.Str? then None
      else if HasUncacheableField(fields) then None
      else if Member(fields, Units("zeroDataRetention")) == Some(Bool(true)) then None
      else if Member(fields, Units("storeInCache")) == Some(Bool(false)) then None
      else if !AcceptableMaxAge(maxAge) then None
      else Some(Lookup(Material(r.apiKeyId.value, r.upstreamUrl, fields),
                       if maxAge.None? then None else Some(maxAge.value.digits)))
  }

  // ---------------------------------------------------------------- which requests

  /** The value a body gives this field, once the order of its fields is forgotten. */
  ghost function Asked(body: map<text, Meaning>, field: string): Option<Meaning> {
    if Units(field) in body then Some(body[Units(field)]) else None
  }

  /** A body for a plain scrape that lets the answer be kept and accepts a kept one. */
  ghost predicate PlainScrape(body: map<text, Meaning>) {
    && (exists url :: Asked(body, "url") == Some(MStr(url)))
    && (forall field | field in ["actions", "headers", "profile", "changeTracking", "lockdown", "minAge"] ::
          Asked(body, field) == None)
    && Asked(body, "zeroDataRetention") != Some(MBool(true))
    && Asked(body, "storeInCache") != Some(MBool(false))
    && Asked(body, "maxAge") != Some(MNum(Units("0")))
    && (Asked(body, "maxAge") == None || exists digits :: Asked(body, "maxAge") == Some(MNum(digits)))
  }

  lemma {:induction false} MemberIsAsked(fields: Fields, field: string)
    ensures Asked(FieldMeanings(fields), field)
         == if Member(fields, Units(field)).Some? then Some(MeaningOf(Member(fields, Units(field)).value)) else None
  {
    hide Units;
    if fields.Field? {
      MemberIsAsked(fields.tail, field);
    }
  }

  lemma UncacheableFields(fields: Fields)
    ensures HasUncacheableField(fields) <==>
              exists field | field in ["actions", "headers", "profile", "changeTracking", "lockdown", "minAge"] ::
                Asked(FieldMeanings(fields), field).Some?
  {
    hide Asked, Member, FieldMeanings;
    MemberIsAsked(fields, "actions");
    MemberIsAsked(fields, "headers");
    MemberIsAsked(fields, "profile");
    MemberIsAsked(fields, "changeTracking");
    MemberIsAsked(fields, "lockdown");
    MemberIsAsked(fields, "minAge");
  }

  /**
    A request may be answered from the cache exactly when it is a scrape posted
    with a virtual key that starts on Cloud without having to, nothing about it is
    private or forbids caching, and its body is a plain scrape; what it says of
    the age of a kept answer is passed on.
   */
  lemma CacheableExactlyWhen(r: Request)
    ensures LookupFor(r).Some? <==>
              && r.isPost && r.isScrapePath && r.startsOnCloud && !r.needsCloud
              && r.apiKeyId.Some? && r.apiKeyId.value != []
              && !r.hasSensitiveHeaders && !r.hasPrivateTargetUrl && !r.forbidsCaching
              && 1 <= r.bodyLength <= 65_536
              && r.body.Some? && r.body.value.Obj? && PlainScrape(FieldMeanings(r.body.value.fields))
    ensures LookupFor(r).Some? ==>
              var maxAge := Asked(FieldMeanings(r.body.value.fields), "maxAge");
              LookupFor(r).value.maxAge == if maxAge == None then None else Some(maxAge.value.digits)
  {
    hide Asked, Member, FieldMeanings, HasUncacheableField, Material;
    if r.body.Some? && r.body.value.Obj? {
      var fields := r.body.value.fields;
      UncacheableFields(fields);
      MemberIsAsked(fields, "url");
      MemberIsAsked(fields, "zeroDataRetention");
      MemberIsAsked(fields, "storeInCache");
      MemberIsAsked(fields, "maxAge");
    }
  }

  // ---------------------------------------------------------------- main results

  /** What a body asks for apart from the caching controls: its options as a map, infinities as null. */
  ghost function Options(fields: Fields): map<text, Meaning> {
    map name | name in FieldMeanings(FiniteFields(fields)) && !IsControl(name) ::
      FieldMeanings(FiniteFields(fields))[name]
  }

  lemma {:induction false} FiniteNames(fields: Fields)
    ensures Names(FiniteFields(fields)) == Names(fields)
  {
    if fields.Field? {
      FiniteNames(fields.tail);
    }
  }

  lemma {:induction false} WithoutControlsMeaning(fields: Fields)
    requires ParsedFields(fields)
    ensures ParsedFields(WithoutControls(fields)) && Names(WithoutControls(fields)) <= Names(fields)
    ensures FieldMeanings(FiniteFields(WithoutControls(fields))) == Options(fields)
  {
    hide Units;
    if fields.Field? {
      WithoutControlsMeaning(fields.tail);
      FiniteNames(fields.tail);
      MeaningKeys(FiniteFields(fields.tail));
    }
  }

  lemma {:induction false} SplitAtNewline(a: text, b: text, x: text, y: text)
    requires NEWLINE !in a && NEWLINE !in b && a + [NEWLINE] + x == b + [NEWLINE] + y
    ensures a == b && x == y
    decreases |a|
  {
    var p, q := a + [NEWLINE] + x, b + [NEWLINE] + y;
    assert p[0] == (if a == [] then NEWLINE else a[0]) && q[0] == (if b == [] then NEWLINE else b[0]);
    assert a != [] ==> a[0] in a;
    assert b != [] ==> b[0] in b;
    if a == [] {
      assert b == [] && p[1..] == x && q[1..] == y;
    } else {
      assert p[1..] == a[1..] + [NEWLINE] + x && q[1..] == b[1..] + [NEWLINE] + y;
      SplitAtNewline(a[1..], b[1..], x, y);
      assert a == [a[0]] + a[1..] && b == [b[0]] + b[1..];
    }
  }

  /**
    Two cacheable requests share an entry exactly when they come from the same
    virtual key, go to the same URL and ask for the same options, in any field
    order and with any caching controls. Key ids and URLs never hold a newline.
   */
  lemma LookupsSeparate(r: Request, s: Request)
    requires LookupFor(r).Some? && LookupFor(s).Some?
    requires Parsed(r.body.value) && Parsed(s.body.value)
    requires 10 !in r.apiKeyId.value && 10 !in s.apiKeyId.value
    requires 10 !in r.upstreamUrl && 10 !in s.upstreamUrl
    ensures LookupFor(r).value.material == LookupFor(s).value.material <==>
              && r.apiKeyId == s.apiKeyId
              && r.upstreamUrl == s.upstreamUrl
              && Options(r.body.value.fields) == Options(s.body.value.fields)
  {
    hide LookupFor, Material, Options;
    LookupMaterial(r);
    LookupMaterial(s);
    MaterialSeparates(r.apiKeyId.value, s.apiKeyId.value, r.upstreamUrl, s.upstreamUrl, r.body.value.fields,
                      s.body.value.fields);
  }

  lemma LookupMaterial(r: Request)
    requires LookupFor(r).Some?
    ensures r.apiKeyId.Some? && r.body.Some? && r.body.value.Obj?
    ensures LookupFor(r).value.material == Material(r.apiKeyId.value, r.upstreamUrl, r.body.value.fields)
  {
    hide Material, HasUncacheableField, Member;
  }

  lemma MaterialSeparates(a: text, b: text, u: text, v: text, f: Fields, g: Fields)
    requires ParsedFields(f) && ParsedFields(g)
    requires NEWLINE !in a && NEWLINE !in b && NEWLINE !in u && NEWLINE !in v
    ensures Material(a, u, f) == Material(b, v, g) <==> a == b && u == v && Options(f) == Options(g)
  {
    hide WithoutControls, Options, Canonical;
    var p, q := Canonical(Obj(WithoutControls(f))), Canonical(Obj(WithoutControls(g)));
    OptionsDecide(f, g);
    assert Material(a, u, f) == a + [NEWLINE] + (u + [NEWLINE] + p);
    assert Material(b, v, g) == b + [NEWLINE] + (v + [NEWLINE] + q);
    if Material(a, u, f) == Material(b, v, g) {
      SplitAtNewline(a, b, u + [NEWLINE] + p, v + [NEWLINE] + q);
      SplitAtNewline(u, v, p, q);
    }
  }

  lemma OptionsDecide(f: Fields, g: Fields)
    requires ParsedFields(f) && ParsedFields(g)
    ensures Canonical(Obj(WithoutControls(f))) == Canonical(Obj(WithoutControls(g))) <==> Options(f) == Options(g)
  {
    hide Canonical, Options;
    WithoutControlsMeaning(f);
    WithoutControlsMeaning(g);
    CanonicalSeparates(Obj(WithoutControls(f)), Obj(WithoutControls(g)));
  }

  /** The newline condition is needed: with one inside the id, two clients could share a text. */
  lemma NewlineInIdCollides(fields: Fields)
    ensures Material([97, NEWLINE, 98], [99], fields) == Material([97], [98, NEWLINE, 99], fields)
  {
  }
}
