/** What the cache stores and reads back: models dumped under their serialization aliases
    (app/core/cache.py:56) and validated under their field names (app/core/cache.py:39). */
module CacheCodec {
  import opened Prelude

  /** One field of a response model; a field without default is required. */
  datatype Field<V> = Field(name: string, alias: string, default: Option<V>)

  ghost predicate Wellformed<V>(fields: seq<Field<V>>) {
    && (forall i, j :: 0 <= i < j < |fields| ==> fields[i].name != fields[j].name)
    && (forall i, j :: 0 <= i < j < |fields| ==> fields[i].alias != fields[j].alias)
  }

  /** `model_dump_json(by_alias=True)` of a model holding `m[i]` in field `i`. */
  function Encode<V>(fields: seq<Field<V>>, m: seq<V>): (data: map<string, V>)
    requires |m| == |fields|
  {
    if fields == [] then map[]
    else
      var n := |fields| - 1;
      Encode(fields[..n], m[..n])[fields[n].alias := m[n]]
  }

  function Lookup<V>(f: Field<V>, data: map<string, V>): Option<V> {
    if f.name in data then Some(data[f.name]) else f.default
  }

  /** `model_validate_json`: a missing required field is an error, which the cache treats as a miss. */
  function Decode<V>(fields: seq<Field<V>>, data: map<string, V>): Option<seq<V>> {
    if forall i :: 0 <= i < |fields| ==> Lookup(fields[i], data).Some?
    then Some(seq(|fields|, i requires 0 <= i < |fields| && Lookup(fields[i], data).Some? => Lookup(fields[i], data).value))
    else None
  }

  ghost predicate IsAlias<V>(fields: seq<Field<V>>, k: string) {
    exists i :: 0 <= i < |fields| && fields[i].alias == k
  }

  lemma {:induction false} EncodeKeys<V>(fields: seq<Field<V>>, m: seq<V>, k: string)
    requires |m| == |fields|
    ensures k in Encode(fields, m) <==> IsAlias(fields, k)
  {
    if fields != [] {
      var n := |fields| - 1;
      EncodeKeys(fields[..n], m[..n], k);
      if IsAlias(fields[..n], k) {
        var i :| 0 <= i < n && fields[..n][i].alias == k;
        assert fields[i].alias == k;
      }
      if IsAlias(fields, k) && k != fields[n].alias {
        var i :| 0 <= i < |fields| && fields[i].alias == k;
        assert fields[..n][i].alias == k;
      }
    }
  }

  lemma {:induction false} EncodeValue<V>(fields: seq<Field<V>>, m: seq<V>, i: nat)
    requires Wellformed(fields) && |m| == |fields| && i < |fields|
    ensures fields[i].alias in Encode(fields, m) && Encode(fields, m)[fields[i].alias] == m[i]
  {
    var n := |fields| - 1;
    if i < n {
      EncodeValue(fields[..n], m[..n], i);
    }
  }

  /** A stored model is unreadable exactly when some required field is dumped under a name that no field
      validates under, whatever the model's values. */
  lemma MissIffRequiredFieldRenamed<V>(fields: seq<Field<V>>, m: seq<V>)
    requires |m| == |fields|
    ensures Decode(fields, Encode(fields, m)).None? <==>
            exists i :: 0 <= i < |fields| && fields[i].default.None? && !IsAlias(fields, fields[i].name)
  {
    forall i | 0 <= i < |fields|
      ensures Lookup(fields[i], Encode(fields, m)).None? <==> fields[i].default.None? && !IsAlias(fields, fields[i].name)
    {
      EncodeKeys(fields, m, fields[i].name);
    }
  }

  /** With every alias equal to its name the cache gives back what was stored. */
  lemma RoundTripWithoutAliases<V>(fields: seq<Field<V>>, m: seq<V>)
    requires Wellformed(fields) && |m| == |fields|
    requires forall i :: 0 <= i < |fields| ==> fields[i].alias == fields[i].name
    ensures Decode(fields, Encode(fields, m)) == Some(m)
  {
    var data := Encode(fields, m);
    forall i | 0 <= i < |fields|
      ensures Lookup(fields[i], data) == Some(m[i])
    {
      EncodeValue(fields, m, i);
    }
    DecodeIsLookup(fields, data, m);
  }

  lemma DecodeIsLookup<V>(fields: seq<Field<V>>, data: map<string, V>, m: seq<V>)
    requires |m| == |fields| && forall i :: 0 <= i < |fields| ==> Lookup(fields[i], data) == Some(m[i])
    ensures Decode(fields, data) == Some(m)
  {
    assert Decode(fields, data).value == m;
  }

  // ---------------------------------------------------------------- the two cached schemas

  /** app/schemas/company.py:30-39 */
  function CompanyFields<V>(absent: V): seq<Field<V>> {
    [Field("id", "id", None), Field("name", "name", None), Field("location", "location", Some(absent)),
     Field("use_flag", "useFlag", None), Field("image_path", "imagePath", Some(absent)),
     Field("template_id", "templateId", Some(absent)), Field("template_data", "templateData", Some(absent))]
  }

  /** app/schemas/job.py:69-84 */
  function JobStandardFields<V>(absent: V, emptyList: V): seq<Field<V>> {
    [Field("id", "id", None), Field("company_id", "companyId", None), Field("company_name", "companyName", Some(absent)),
     Field("name", "name", None), Field("use_flag", "useFlag", None),
     Field("routine_start_time", "routineStartTime", Some(absent)),
     Field("standard_work_time_seconds", "standardWorkTimeSeconds", None),
     Field("standard_rest_time_seconds", "standardRestTimeSeconds", None),
     Field("start_message", "startMessage", Some(absent)), Field("end_message", "endMessage", Some(absent)),
     Field("context", "context", Some(absent)), Field("for_journal", "forJournal", None),
     Field("processes", "processes", Some(emptyList))]
  }

  /** As written, neither schema can be read back: every lookup after a fill is a miss. */
  lemma CachedSchemasAlwaysMiss<V>(absent: V, emptyList: V, company: seq<V>, standard: seq<V>)
    requires |company| == |CompanyFields(absent)| && |standard| == |JobStandardFields(absent, emptyList)|
    ensures Decode(CompanyFields(absent), Encode(CompanyFields(absent), company)).None?
    ensures Decode(JobStandardFields(absent, emptyList), Encode(JobStandardFields(absent, emptyList), standard)).None?
  {
    var c, s := CompanyFields(absent), JobStandardFields(absent, emptyList);
    assert |"use_flag"| == 8 && "location"[0] != "use_flag"[0];
    assert forall i :: 0 <= i < |c| ==> |c[i].alias| != 8 || c[i].alias == "location";
    assert forall i :: 0 <= i < |s| ==> |s[i].alias| != 8;
    assert c[3].default.None? && !IsAlias(c, c[3].name);
    assert s[4].default.None? && !IsAlias(s, s[4].name);
    MissIffRequiredFieldRenamed(c, company);
    MissIffRequiredFieldRenamed(s, standard);
  }
}
