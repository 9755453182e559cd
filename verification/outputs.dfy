/**
  The output modules the translation generator manages: their paths, the
  licence header and the definitions written after it.
*/
module Outputs {
  import opened Text
  import opened Mappings

  // ---------------------------------------------------------------------------
  // The managed output modules
  // ---------------------------------------------------------------------------

  const LICENSE: string := "# (C) British Crown Copyright 2013, Met Office\n#\n# This file is part of Iris.\n#\n# Iris is free software: you can redistribute it and/or modify it under\n# the terms of the GNU Lesser General Public License as published by the\n# Free Software Foundation, either version 3 of the License, or\n# (at your option) any later version.\n#\n# Iris is distributed in the hope that it will be useful,\n# but WITHOUT ANY WARRANTY; without even the implied warranty of\n# MERCHANTABILITY or FITNESS FOR A PARTICULAR PURPOSE.  See the\n# GNU Lesser General Public License for more details.\n#\n# You should have received a copy of the GNU Lesser General Public License\n# along with Iris.  If not, see <http://www.gnu.org/licenses/>.\n"
  const DO_NOT_EDIT: string := "\n# DO NOT EDIT: AUTO-GENERATED \n\n"
  /** `header`: written first to every managed module. */
  const HEADER: string := LICENSE + DO_NOT_EDIT

  const ICOL: string := "import collections\n"
  const CF_TUPLE_DEF: string := "\nCFname = collections.namedtuple('CFname', ['standard_name', 'long_name',\n                                           'unit'])\n"
  const GRIB_TUPLE_DEF: string := "\nG2param = collections.namedtuple('G2param', ['edition', 'discipline',\n                                             'category', 'number'])\n\nG1Lparam = collections.namedtuple('G1Lparam', ['edition', 't2version', 'centre',\n                                               'iParam'])\n\nDimensionCoordinate = collections.namedtuple('DimensionCoordinate',\n                                            ['standard_name', 'units', 'points'])\n\n"

  /** `BUILT_FILES`: each managed module and the definitions written after the header. */
  const BUILT_FILES: map<string, seq<string>> :=
    map[UM_CF_FILE := [ICOL, CF_TUPLE_DEF], GRIB_CF_FILE := [ICOL, GRIB_TUPLE_DEF, CF_TUPLE_DEF]]

  /** Output modules by path. */
  type Files = map<string, string>

  /** The managed modules once the header and their extra definitions are written. */
  function InitialFiles(): (r: Files)
    ensures r.Keys == BUILT_FILES.Keys
    ensures forall f :: f in r ==> r[f] == HEADER + Join(BUILT_FILES[f], "")
  {
    map f | f in BUILT_FILES :: HEADER + Join(BUILT_FILES[f], "")
  }

  /** `path in BUILT_FILES`, spelt out by path. */
  predicate Managed(path: string) {
    path == UM_CF_FILE || path == GRIB_CF_FILE
  }

  /** The managed modules are exactly the keys of `BUILT_FILES`. */
  lemma BuiltFilesManaged()
    ensures forall f :: Managed(f) <==> f in BUILT_FILES
  {
  }

  /** The managed modules are exactly the modules some mapping class writes to. */
  lemma InFilesManaged()
    ensures forall k :: Managed(InFile(k))
    ensures forall f :: Managed(f) <==> exists k :: InFile(k) == f
  {
    assert InFile(StashCF) == UM_CF_FILE;
    assert InFile(Grib2CF) == GRIB_CF_FILE;
  }

  /** The text of a module before anything is appended to it: opening in append mode creates it empty. */
  function Existing(files: Files, path: string): string {
    if path in files then files[path] else ""
  }

  /** Two rounds of appending, each module gaining `a(f)` and then `b(f)`, append `c(f)` when `c(f)` is the two together. */
  lemma ComposeAppends(files: Files, next: Files, last: Files, a: string -> string, b: string -> string, c: string -> string)
    requires forall f :: Existing(next, f) == Existing(files, f) + a(f)
    requires forall f :: Existing(last, f) == Existing(next, f) + b(f)
    requires forall f :: c(f) == a(f) + b(f)
    ensures forall f :: Existing(last, f) == Existing(files, f) + c(f)
  {
    forall f
      ensures Existing(last, f) == Existing(files, f) + c(f)
    {
      assert Existing(files, f) + a(f) + b(f) == Existing(files, f) + (a(f) + b(f));
    }
  }

  /** Leaving the modules as they are appends nothing to any of them. */
  lemma KeepAppendsNothing(files: Files)
    ensures forall f :: Existing(files, f) == Existing(files, f) + ""
  {
    forall f
      ensures Existing(files, f) == Existing(files, f) + ""
    {
      assert Existing(files, f) + "" == Existing(files, f);
    }
  }

  /** Appending `chunk` to module `path`, creating it if need be, appends `chunk` there and nothing elsewhere. */
  lemma UpdateAppends(files: Files, next: Files, path: string, chunk: string)
    requires next.Keys == files.Keys + {path}
    requires next[path] == Existing(files, path) + chunk
    requires forall f :: f in files && f != path ==> next[f] == files[f]
    ensures forall f :: Existing(next, f) == Existing(files, f) + (if f == path then chunk else "")
  {
    forall f
      ensures Existing(next, f) == Existing(files, f) + (if f == path then chunk else "")
    {
      if f != path {
        assert Existing(files, f) + "" == Existing(files, f);
      }
    }
  }
}
