# qmat_cli command line and OBJ reader, modelled in Dafny

`qmat_cli` computes the medial axis of a closed triangle mesh and can
optionally simplify it. This project models the two parts of the program
whose logic is visible in its own source:

* **The command line** (`main_cli.cpp`). `parseArguments` scans `argv` from
  left to right and fills a `CLIOptions` record:
  * `--simplify`, `--k` and `--output` take the following argument as their
    value;
  * `--help` / `-h` stop the scan;
  * every error sets `valid` to false, sets a message and returns at once;
  * after the scan, an input file is required, and a missing output prefix
    is derived from the input name by cutting one trailing `.off`.

  `main` then shows the usage, reports the error, or runs the pipeline. When
  simplification is asked for, it either skips it (the target is not below
  the current vertex count) or removes the difference.
* **The OBJ reader** (`ObjLoader.cpp`):
  * `GetFileExtension` returns the lower-cased text after the last `.`;
  * `IsObjFile` / `IsOffFile` test that extension;
  * `ParseObjFile` passes the file name and its base directory to the
    tinyobj loader, handles its three failure cases (loader failure, no
    vertices, no faces), copies the vertex coordinates and regroups each
    shape's flat corner list into one vertex-index list per face.

Modules:

| file | module | contents |
|---|---|---|
| `wrappers.dfy` | `Wrappers` | `Option` |
| `strings.dfy` | `Strings` | `find_last_of`, `rfind`, ASCII `tolower` |
| `command_line.dfy` | `CommandLine` | `CLIOptions`, one loop iteration (`Step`), the whole scan (`Scan`), its specification `Parse`, the imperative `ParseArguments` proved equal to it, and `main`'s decisions |
| `command_line_lemmas.dfy` | `CommandLineLemmas` | what a parse yields, argument by argument and overall |
| `obj_faces.dfy` | `ObjFaces` | the loader's output as a value, and the regrouping of corners into faces (`Chunks`, `FaceList`) with its properties |
| `obj_loader.dfy` | `ObjLoader` | extensions, base directory, the `ObjData` class and the imperative `ParseObjFile` |

How the model represents the source:

* `std::stoi` and `std::stod` are parameters of the parser. Each is a
  function from the argument text to `Option`, and `None` stands for the
  call throwing.
* `k` is a `Double` with `NaN` and the infinities, so the test `k <= 0` is
  modelled exactly.
* `tinyobj::LoadObj` is a parameter of `ParseObjFile`. It maps the file name
  and the optional base directory to a `LoadResult` value: `ret`, `err`,
  `attrib.vertices` and, per shape, `indices` and `num_face_vertices`.
* The `ParseObjFile` arguments `data` and `error` are in/out in C++. `data`
  is an `ObjData` object that the method appends to. The entry value of
  `error` is the parameter `errorIn`, and the exit value is the
  out-parameter `error`.

Where the code does something a reader might not expect, the model follows
the code:

* An empty argument is a positional argument, because `arg[0]` of an empty
  `std::string` is `'\0'`. It leaves `inputFile` empty when it comes first,
  and causes "Multiple input files specified." once an input is known. So
  the second positional argument is rejected even when it is empty.
* A `k` of NaN passes the positivity test, because `NaN <= 0` is false.
* `--simplify` stores the parsed target before testing it. The invalid
  record returned for a non-positive target therefore carries that target.
* `ParseObjFile` writes "Failed to load OBJ file: ..." only when `error` is
  still empty. A message the caller had already put there is kept.
* The extension search is not path-aware: `a.b/c` has the extension `b/c`.
* An input named exactly `.off` gets the empty output prefix.

## Model

| member | source | states |
|---|---|---|
| CommandLine.ParseArguments | main_cli.cpp:57-153 | the loop with its early returns and the default-prefix step yields exactly the record `Parse` specifies |
| CommandLine.Dispatch | main_cli.cpp:163-172 | usage exactly when help was asked; an error report exactly when the record is invalid and not help, made of the two lines "Error: " + message and "Use --help for usage information."; otherwise the run |
| CommandLine.PlanSimplification | main_cli.cpp:240-274 | not requested exactly when the target is not positive; skipped exactly when target >= current count; otherwise it removes `current - target > 0` vertices, leaving the target |
| CommandLineLemmas.NoArguments | main_cli.cpp:60-63 | fewer than two argv entries: invalid, not help, "No input file specified." |
| CommandLineLemmas.HelpStopsParsing | main_cli.cpp:66-72 | after a clean prefix, `--help`/`-h` returns the record reached so far with `showHelp` set, whatever follows |
| CommandLineLemmas.FirstReturnWins | main_cli.cpp:66-134 | once the scan has returned, through help or any error other than a missing value, appending arguments does not change the result |
| CommandLineLemmas.ScanAppend | main_cli.cpp:66-134 | a scan that ran to the end continues on appended arguments from its final record; a returned scan is unaffected by them unless it stopped for a missing value |
| CommandLineLemmas.FlagWithoutValue | main_cli.cpp:73-118 | `--simplify`, `--k` or `--output` as the last argument: invalid with "<flag> requires a value." and the record otherwise as it was |
| CommandLineLemmas.OutputTakesNextArgument | main_cli.cpp:111-118 | `--output v` sets the prefix to `v`, whatever `v` looks like, and the scan continues after `v` |
| CommandLineLemmas.SimplifyTakesNextArgument | main_cli.cpp:73-91 | unparsable value: "Invalid value for --simplify."; non-positive: target stored and "--simplify value must be positive."; positive: target stored and the scan continues |
| CommandLineLemmas.KTakesNextArgument | main_cli.cpp:92-110 | the same three outcomes for `--k`, with the C++ test `k <= 0` |
| CommandLineLemmas.UnknownOption | main_cli.cpp:119-123 | any other argument starting with '-' gives "Unknown option: " followed by the argument |
| CommandLineLemmas.SecondInputFile | main_cli.cpp:124-133 | with an input file already set, any positional argument gives "Multiple input files specified." |
| CommandLineLemmas.RepeatedOptionLastWins | main_cli.cpp:73-118 | a value flag given twice, with an accepted first value and a second value that converts, parses as if only the second were given |
| CommandLineLemmas.UnparsableSecondValue | main_cli.cpp:73-91 | after a clean prefix, `--simplify a --simplify b` with `a` accepted and `b` not converting gives "Invalid value for --simplify." with target `a` kept, while `--simplify b` alone gives it with the target as it was |
| CommandLineLemmas.StepOutcome | main_cli.cpp:66-134 | one iteration from an error-free state continues in an error-free state with accepted target and k, or stops with help or an error; `valid` iff no message; the input is one of the arguments |
| CommandLineLemmas.ScanOutcome | main_cli.cpp:66-134 | the same invariant over the whole scan |
| CommandLineLemmas.ParseOutcome | main_cli.cpp:57-153 | `valid` iff no message; help implies valid; valid implies target -1 or positive and k not <= 0; a valid non-help record has a non-empty input that is one of the arguments and a prefix that is the scanned one or the derived one |
| CommandLineLemmas.ScanKeepsOutputPrefix | main_cli.cpp:111-118 | only `--output` changes the output prefix |
| CommandLineLemmas.DefaultPrefixWithoutOutputFlag | main_cli.cpp:142-150 | without `--output`, a successful parse derives the prefix from the input name |
| CommandLineLemmas.ExplicitOutputKept | main_cli.cpp:142-150 | a non-empty `--output` value not given again later is the final prefix |
| CommandLineLemmas.DefaultOutputPrefixStripsOff | main_cli.cpp:143-150 | the derived prefix is the input with one trailing, case-sensitive ".off" cut, and the input unchanged otherwise; adding ".off" back restores the input |
| CommandLineLemmas.RunPlansFromValidOptions | main_cli.cpp:168-274 | a run has an input and a k that passed the test; simplification is not requested exactly when the target is -1, and a reduction leaves exactly the positive target |
| CommandLineLemmas.UsageExamples | main_cli.cpp:52-54 | each of the three usage examples parses to the record it describes |
| CommandLineLemmas.DashValuesAreValues | main_cli.cpp:80-117 | `--output --help` sets the prefix "--help"; `--simplify -5` fails only the positivity test |
| ObjLoader.GetFileExtension | ObjLoader.cpp:8-18 | empty iff there is no '.' or the name ends with one; otherwise it has the length of the text after the last '.', there is no '.' in that text, and it is that text lower-cased |
| ObjLoader.HasExtension | ObjLoader.cpp:8-26 | a dot-free extension `e` is the result iff the name ends in '.' plus characters that lower-case to `e` |
| ObjLoader.ObjAndOffSuffixes | ObjLoader.cpp:20-26 | `IsObjFile`/`IsOffFile` iff the name ends in '.' and three characters lower-casing to "obj"/"off"; never both |
| ObjLoader.ExtensionIgnoresCase | ObjLoader.cpp:13-17 | lower-casing the name does not change the extension |
| ObjLoader.UpperCaseExtension | ObjLoader.cpp:8-26 | "model.OBJ" is an OBJ file and "mesh.Off" an OFF file |
| ObjLoader.LastDotExtension | ObjLoader.cpp:9-17 | "archive.tar.gz" has extension "gz"; "a.b/c" has extension "b/c" |
| ObjLoader.MissingExtension | ObjLoader.cpp:9-12 | "model." and "model" have no extension |
| ObjLoader.BaseDirectory | ObjLoader.cpp:43-47 | a prefix of the name; empty iff the name has no '/' or '\'; otherwise it ends with a separator and no separator follows it in the name |
| ObjLoader.MaterialDirectory | ObjLoader.cpp:43-51 | the loader's directory argument is null exactly when the name has no separator, and the base directory otherwise |
| ObjLoader.BaseDirectoryExamples | ObjLoader.cpp:43-47 | base directories of names with '/', with '\', with both, and with neither |
| ObjLoader.LoadFailureMessage | ObjLoader.cpp:57-66 | after a loader failure `error` is never empty: the loader's message when it has one, else the caller's text when it has one, else "Failed to load OBJ file: " + the file name |
| ObjLoader.ObjData.constructor | ObjLoader.cpp:29-32 | a new `ObjData` has no vertices and no faces |
| ObjLoader.CopyVertices | ObjLoader.cpp:73-78 | the coordinates are appended in order, element for element; faces unchanged |
| ObjLoader.CollectFaces | ObjLoader.cpp:80-97 | the faces of all shapes are appended, shape after shape; vertices unchanged |
| ObjLoader.ReadFace | ObjLoader.cpp:86-92 | the face has `fv` entries, entry `w` being the vertex index of corner `indexOffset + w` |
| ObjLoader.AppendShapeFaces | ObjLoader.cpp:82-96 | the faces of one shape are appended, as the corners cut by the per-face counts; vertices unchanged |
| ObjLoader.ParseObjFile | ObjLoader.cpp:35-108 | loader failure: false, the failure message, data unchanged; no vertices: false, "OBJ file contains no vertices", data unchanged; otherwise vertices appended in order, every shape's faces appended, true exactly when there are faces, "OBJ file contains no faces" when not, and otherwise `error` is the loader's message or the caller's text |
| ObjFaces.VertexIndices | ObjLoader.cpp:89-91 | the `vertex_index` of each corner, in order |
| ObjFaces.SumPrefix | ObjLoader.cpp:82-95 | the running offset grows by each count and stays within the total |
| ObjFaces.ChunkAt | ObjLoader.cpp:83-96 | face `f` is the `num_face_vertices[f]` corners that start at the sum of the earlier counts |
| ObjFaces.ChunksByPosition | ObjLoader.cpp:83-96 | a face list is the regrouping iff it has one face per count and face `f` is the slice at the running offset |
| ObjFaces.ChunkCount | ObjLoader.cpp:83 | a shape has one face per count |
| ObjFaces.ChunksAppend | ObjLoader.cpp:83-96 | cutting by two runs of counts is cutting by the first, then cutting the rest by the second |
| ObjFaces.FlattenChunks | ObjLoader.cpp:83-96 | a shape's faces put back together are its first `Sum(counts)` corners: nothing lost or reordered |
| ObjFaces.FaceListSnoc | ObjLoader.cpp:81-97 | the faces of the first `s+1` shapes are those of the first `s` followed by those of shape `s` |
| ObjFaces.FaceListCorners | ObjLoader.cpp:81-97 | over all shapes, the faces put back together are the used corners in their order |
| ObjFaces.FaceCount | ObjLoader.cpp:81-102 | the number of faces is the total number of counts; there are no faces iff no shape has a count |
| ObjFaces.TwoTriangles | ObjLoader.cpp:81-97 | six corners with counts [3, 3] give two triangles of their vertex indices |

## Left out

- The medial-axis and slab-simplification pipeline (`computedt`, `ComputeInputNMM`, `LoadInputNMM`, `LoadSlabMesh`, `CleanIsolatedVertices`, `Simplify`, the normal and cone passes, `Export`): its code lies outside the modelled files and is CGAL-based floating-point geometry. Only the decision to simplify or skip is modelled.
- The rest of `main`: console output, `printUsage`'s text, file streams, `clock()` timing and the CGAL mesh-domain set-up are I/O and orchestration.
- `std::stoi` / `std::stod`: their prefix parsing, range errors and 32-bit `int` result are abstracted into the parser parameters. The model is exact for any behaviour of them.
- `tinyobj::LoadObj` (including its warnings and material loading) is a foreign library. Its result is an input of the model.
- `LoadObjFile`'s use of the CGAL builder (`mesh.delegate`, `is_valid`, `is_closed`) and the `ObjPolyhedronBuilderT` of `ObjLoader.h` are thin wrappers over invisible library logic and are not part of this model.
- Strings are sequences of Unicode characters, not the bytes of a `std::string`: lengths such as that of the extension are counted in characters, and names that are not valid UTF-8 cannot be written. The tests on '.', '/', '\' and '-' are the same either way.
- The printed "OBJ: N vertices, M faces" line of `ParseObjFile` is I/O.
- The float-to-double conversion of vertex coordinates: coordinates are `real` and are copied unchanged.
- `std::tolower` depends on the locale; only the "C" locale's ASCII lower-casing is modelled.
- ObjLoader.ParseObjFile: when the loader succeeds with vertices, it requires every shape to list at least as many corners as its face counts add up to. Otherwise the C++ face loop reads `indices` out of bounds, which has undefined behaviour. The failure paths require nothing.
- ObjLoader.ParseObjFile: the vertex and face lists are sequences reassigned in place; `reserve` and memory layout are not modelled.
