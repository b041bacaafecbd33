# deeputils: search helpers and request-validation rules

A Dafny model of two parts of the `deeputils` Python package:

- the search and string helpers of `deeputils/common.py`: `dict_search` (the index of the
  first record whose field `k` equals `v`), `tuple_search` (that record itself) and
  `string_insert` (splice one string into another);
- the validation rules of `deeputils/django/serializers.py`, without the web framework:
  the module function `validate_id`, the `ArrayField` split, and `ModifyViewSerializer`'s
  `validate_field`, `validate`, `fix_boolean` and `fix_empty`, and
  `ObjectPostViewSerializer.validate_id`.

Files and modules:

- `results.dfy` (`Results`): `Option` for Python's `None`, `Result` for a raised exception.
- `common.dfy` (`Common`): the helpers of `common.py`. A record is a `map<K, V>`;
  a record without key `k` makes `d[i][k]` raise `KeyError`, which the model returns as
  `Err(KeyError(k))`. Python's slice-bound rules (negative positions count from the end,
  out-of-range positions are clamped) are written out in `SliceBound`.
- `strings.dfy` (`Strings`): the behaviour of the Python `str` methods the serializers rely
  on: `split` on one character, `strip` and `capitalize`; plus `join`, the inverse in which
  the split's round trip is stated.
- `serializers.dfy` (`Serializers`): the validation rules. The object store behind
  `model.objects.get(pk=...)` is a map from primary key to the object's `public` flag and
  owning account; the truthiness of `getattr(model, 'public', False)` is a boolean; the
  model's boolean fields are a set of names; the model serializer's `is_valid()` verdict is
  a function parameter. Request data maps field names to a string, an integer or `None`.

`dict_search`, `tuple_search`, `validate_field`, `fix_boolean` and `fix_empty` are loops in
the source and are methods with loop invariants here; `validate` is a method that deletes,
merges, pops and restores keys. The loops over `data.items()` visit the key set one key at
a time. `string_insert`, the `ArrayField` split and both `validate_id` rules are functions.

## Model

| member | source | states |
|---|---|---|
| `Common.DictSearch` | deeputils/common.py:10-14 | a returned index is in range, its record has field `k` equal to `v`, and every earlier record has field `k` with another value; `None` exactly when every record has `k` and none matches; `KeyError(k)` only at a first record lacking `k`, after records that do not match |
| `Common.TupleSearch` | deeputils/common.py:17-21 | a returned element is a member of `t` whose field `k` equals `v`, and every element before it has `k` with another value; `None` exactly when no element matches (and all have `k`); `KeyError(k)` only at a first element lacking `k` |
| `Common.SliceBound` | deeputils/common.py:25 | where Python's `s[:i]` and `s[i:]` cut: inside `0..len(s)`; an in-range `i` as it is; a negative `i` counted from the end; clamped to `0` and `len(s)` |
| `Common.StringInsert` | deeputils/common.py:24-25 | the result has length `len(str1) + len(str2)`; before the cut it is `str1`'s prefix, then `str2`, then `str1`'s rest |
| `Common.InsertThenDelete` | deeputils/common.py:25 | deleting `len(str2)` characters at the cut of `string_insert(str1, str2, i)` gives back `str1` |
| `Common.InsertEmpty` | deeputils/common.py:25 | inserting `''` anywhere leaves `str1` unchanged |
| `Common.InsertAtEnds` | deeputils/common.py:25 | position `0` prepends `str2`; a position at or past `len(str1)` appends it |
| `Strings.Split` | deeputils/django/serializers.py:29 | `s.split(sep)` gives at least one piece and no piece contains `sep` |
| `Strings.SplitCount` | deeputils/django/serializers.py:29 | `s.split(sep)` has one more piece than `s` has occurrences of `sep` |
| `Strings.JoinSplit` | deeputils/django/serializers.py:29 | `sep.join(s.split(sep)) == s` for every `s` |
| `Strings.SplitJoin` | deeputils/django/serializers.py:29 | splitting the join of a non-empty list of separator-free pieces gives back the list |
| `Strings.Strip` | deeputils/django/serializers.py:69-70 | `s.strip()` is a contiguous part of `s`, everything cut before and after it is white space, and it neither starts nor ends with white space |
| `Strings.StripIdempotent` | deeputils/django/serializers.py:69-70 | stripping a stripped string changes nothing |
| `Strings.Capitalize` | deeputils/django/serializers.py:99 | `s.capitalize()` with ASCII case mapping: the first character upper-cased, all others lower-cased, the length kept |
| `Strings.CapitalizeIdempotent` | deeputils/django/serializers.py:99 | capitalising twice is capitalising once |
| `Serializers.ValidateId` | deeputils/django/serializers.py:12-24 | a success returns `oid` unchanged; with no `oid` it returns `None` when `allow_none` holds and fails with `NotFound` otherwise; with an `oid`: `NotFound` iff no such object, success iff the object is visible (public object of a public model, no account given, or the account owns it), otherwise `NotAuthenticated` |
| `Serializers.PublicObjectPasses` | deeputils/django/serializers.py:16-17 | a public object of a public model is returned whatever the account |
| `Serializers.PostValidateId` | deeputils/django/serializers.py:133-140 | `Conflict` iff an id is given and an object with it exists; otherwise the id is returned unchanged |
| `Serializers.ArrayFieldValue` | deeputils/django/serializers.py:27-32 | `None` maps to `None`; a value that is not a string fails with `NoSplit` (Python's `AttributeError`); a string gives one more item than it has commas, no item contains `,`, and joining the items with `,` gives back the string |
| `Serializers.ArrayFieldOfJoin` | deeputils/django/serializers.py:27-32 | a non-empty list of comma-free items comes back unchanged from its comma-joined form |
| `Serializers.ValidateField` | deeputils/django/serializers.py:62-66 | succeeds, returning `value` unchanged, iff every comma-separated name (not stripped) is in `allowed_fields`; otherwise fails with the allow-list |
| `Serializers.Pieces` | deeputils/django/serializers.py:69-70 | item `i` is the `i`-th piece of `s.split(',')`, stripped; there is one more item than commas, and no item contains `,` or starts or ends with white space |
| `Serializers.ZipToMap` | deeputils/django/serializers.py:75 | `dict(zip(keys, vals))` has exactly the listed keys, and each maps to the value at its last occurrence |
| `Serializers.Merge` | deeputils/django/serializers.py:73-75 | after the two deletions and the merge, the keys are the original ones less `field` and `value` plus the listed ones; a listed field has the value at its last occurrence; an unlisted original key keeps its value |
| `Serializers.FixBoolean` | deeputils/django/serializers.py:96-100 | fails with a boolean field whose value is not a string iff there is one; otherwise keeps the key set, replaces each boolean field's string by its capitalised form and leaves all other entries unchanged |
| `Serializers.EmptiesNulled` | deeputils/django/serializers.py:102-106 | keeps the key set, sets exactly the `''` entries to `None`, keeps all other entries, and leaves no `''` |
| `Serializers.EmptiesNulledIdempotent` | deeputils/django/serializers.py:102-106 | replacing `''` by `None` twice is doing it once |
| `Serializers.FixEmpty` | deeputils/django/serializers.py:102-106 | the loop's result is the data with every `''` replaced by `None` |
| `Serializers.FixesNormalize` | deeputils/django/serializers.py:77-78 | `fix_empty` after a successful `fix_boolean` normalises each entry on its own |
| `Serializers.PopRestoreId` | deeputils/django/serializers.py:80-89 | popping `id` and putting it back unless it is `None` drops exactly an `id` whose value is `None` and changes nothing else |
| `Serializers.Finished` | deeputils/django/serializers.py:77-89 | the returned data keeps the merged keys, less `id` when it normalises to `None`; every entry is the normalised merged value; no `''` is left |
| `Serializers.FixAndCheck` | deeputils/django/serializers.py:77-94 | a non-string boolean value makes it fail with `NotText`, which carries the field as the model's own tag (Python raises an `AttributeError` naming only the value's type, not a `ValidationError`); otherwise it returns the finished data if the model serializer accepts it and fails with `ModelInvalid` if not |
| `Serializers.Validate` | deeputils/django/serializers.py:68-94 | fails with a length mismatch iff the stripped field and value lists differ in length; otherwise ends as `FixAndCheck` does on the merged data |
| `Serializers.FinishedEntries` | deeputils/django/serializers.py:73-89 | in the returned data a listed field other than `id` has the normalised value of its last occurrence; an unlisted original key other than `id` has its own normalised value; `id` (listed: its last occurrence, unlisted: the request's own) is present iff its normalised value is not `None`, and then has that value; `field`/`value` are gone unless listed |

## Left out

- `log`, `format_datetime` and `format_date` (deeputils/common.py:6-7, 28-33): console output and `strftime` formatting.
- `deeputils/logger.py`, `deeputils/django/schemas.py`, `deeputils/django/views.py`, `deeputils/exceptions.py` and `setup.py`: logging set-up, schema generation, ORM querysets, status-code constants and build metadata. The error tags `NotFound`, `NotAuthenticated` and `Conflict` reuse the exception names; the message texts are not modelled.
- `JSONField` and `ModifyModelSerializer` (deeputils/django/serializers.py:35-55): delegation to `json.loads` and the framework.
- The model serializer's own field validation behind `pp.is_valid()` and its `errors`: a function parameter that gives only the verdict.
- The ORM: `model.objects.get(pk=...)` is a map lookup, and `getattr(model, 'public', False)` the boolean of its truthiness; `obj.public is True` is read as a boolean field.
- `ObjectPutViewSerializer`, `ObjectGetViewSerializer` and `ObjectDeleteViewSerializer.validate_id` only call `validate_id` with `allow_none` true, true and false; `ValidateId` covers them.
- Recursive mapping transforms (flatten, remove-key, remove-value, format-type) are not in `deeputils/common.py` or `deeputils/django/serializers.py`; they are not part of this model.
- `self.model._meta.get_field(field)` raising for a name that is not a model field.
- `extend_validate` is the identity, as in `ModifyViewSerializer`; subclasses that override it are not modelled.
- Aliasing: `validate` deletes `field` and `value` from the caller's dictionary, and `fix_boolean`/`fix_empty` update their argument in place. The model works on map values and returns the new map, so the caller's copy is not changed.
- Order: Python walks a dictionary in insertion order; the model walks its key set in any order. Only which field `NotText` is tagged with depends on this; Python's `AttributeError` does not name the field.
- `Strings.Capitalize`: maps ASCII letters only. Python's `str.capitalize()` changes the case of every cased character and can change the length (`'ß'` becomes `'Ss'`). This is enough for `fix_boolean`, whose purpose is to turn the ASCII spellings `true`/`false` into `True`/`False` (`Strings.CapitalizeBooleans` shows this for four spellings).
- `Serializers.ArrayFieldValue`: the raw input domain is a string, an integer or `None`; a JSON list or another non-string value fails with `AttributeError` in Python just as an integer does here, but is not itself represented.
- `Common.DictSearch`, `Common.TupleSearch`: records are dictionaries; records that are lists or tuples indexed by position, and an `IndexError` in place of `KeyError`, are not modelled.
