/**
 * The fixture `mockReport` (`lib/mock-report-data.ts`, lines 65-302) and the
 * facts the editor relies on when it starts from it.
 */
module MockReport {
  import opened Wrappers
  import opened Text
  import opened ReportData
  import opened HighlightedText
  import opened FindingsSection
  import opened ConfidenceBadge

  const MockPatientInfo: PatientInfo := PatientInfo("Pony", "Felino", "Hembra esterilizada", "Cardozo Guadalupe", "Abdominal", "13/11/2025", "Nieto", "Común Europeo", "10 años")

  const MockDiagnosis: Diagnosis := Diagnosis(0.95, [
        "Nódulos esplénicos múltiples",
        "Adrenomegalia bilateral con nódulo en glándula adrenal izquierda",
        "Linfadenomegalia gástrica",
        "Hernia inguinal"], Pending, None, None, None)

  const Finding1: Finding :=
    Finding(
      "finding-1",
      "Hígado",
      0.92,
      "Parénquima homogéneo. Textura levemente "
        + "granular. Contorno liso y regular, "
        + "delineado por una fina cápsula "
        + "hiperecogénica. La porción caudo "
        + "ventral no sobrepasa el fundus "
        + "gástrico. Las venas hepáticas se "
        + "aprecian fácilmente en el parénquima "
        + "hepático como estructuras anecogénicas "
        + "tubulares. Las venas portales se "
        + "diferencian de las venas sistémicas en "
        + "el parénquima por sus paredes "
        + "hiperecogénicas.",
      "Parénquima homogéneo. Textura levemente "
        + "granular. Contorno liso y regular, "
        + "delineado por una fina cápsula "
        + "hiperecogénica. La porción caudo "
        + "ventral no sobrepasa el fundus "
        + "gástrico. Las venas hepáticas se "
        + "aprecian fácilmente en el parénquima "
        + "hepático como estructuras anecogénicas "
        + "tubulares. Las venas portales se "
        + "diferencian de las venas sistémicas en "
        + "el parénquima por sus paredes "
        + "hiperecogénicas.",
      false,
      None,
      None,
      Pending,
      "img-1",
      None,
      None)

  const Finding2: Finding :=
    Finding(
      "finding-2",
      "Vesícula Biliar",
      0.67,
      "Distención media por contenido "
        + "anecoico, con un volumen de "
        + "6.61 cm³"
        + ". Pared fina y lisa. Mide 41.54 mm x "
        + "15.70 mm x 19.35 mm.",
      "Distención media por contenido "
        + "anecoico, con un volumen de "
        + "6.61 cm³"
        + ". Pared fina y lisa. Mide 41.54 mm x "
        + "15.70 mm x 19.35 mm.",
      false,
      None,
      None,
      Pending,
      "img-1",
      Some([
        AbnormalValue("6.61 cm³", 6.61, "cm³", 2.0, 5.0)]),
      None)

  const Finding3: Finding :=
    Finding(
      "finding-3",
      "Bazo",
      0.88,
      "De topografía habitual. Espesor de "
        + "10.95 mm"
        + ", conservado, contornos regulares y "
        + "márgenes preservados. Parénquima de "
        + "ecotextura homogénea de grano fino.",
      "De topografía habitual. Espesor de "
        + "11.05 mm"
        + ", conservado, contornos regulares y "
        + "márgenes preservados. Parénquima de "
        + "ecotextura homogénea de grano fino. Se "
        + "observan múltiples lesiones nodulares "
        + "hipoecoicas, de contornos definidos, "
        + "que miden entre "
        + "2.91 mm"
        + " y "
        + "8.69 mm"
        + ". Arquitectura vascular preservada.",
      true,
      Some("Dr. Cardozo"),
      Some("13/11/2025 10:25"),
      Edited,
      "img-2",
      Some([
        AbnormalValue("11.05 mm", 11.05, "mm", 8.0, 10.0),
        AbnormalValue("2.91 mm", 2.91, "mm", 0.0, 3.0),
        AbnormalValue("8.69 mm", 8.69, "mm", 0.0, 3.0)]),
      None)

  const Finding4: Finding :=
    Finding(
      "finding-4",
      "Estómago",
      0.91,
      "Distendido, presenta contenido líquido "
        + "abundante, adecuado peristaltismo y "
        + "paredes de espesor levemente engrosado ("
        + "4.69 mm"
        + " en porción evaluada) que conservan "
        + "estratificación mural.",
      "Distendido, presenta contenido líquido "
        + "abundante, adecuado peristaltismo y "
        + "paredes de espesor levemente engrosado ("
        + "4.69 mm"
        + " en porción evaluada) que conservan "
        + "estratificación mural.",
      false,
      None,
      None,
      Accepted,
      "img-2",
      Some([
        AbnormalValue("4.69 mm", 4.69, "mm", 2.0, 4.0)]),
      None)

  const Finding5: Finding :=
    Finding(
      "finding-5",
      "Intestino Delgado",
      0.85,
      "Peristaltismo adecuado en asas delgadas "
        + "evaluadas con estratificación mural "
        + "preservada, con carga mucosa a gaseosa "
        + "intra luminal. Duodeno de "
        + "4.01 mm"
        + ", yeyuno de espesor mural conservado.",
      "Peristaltismo adecuado en asas delgadas "
        + "evaluadas con estratificación mural "
        + "preservada, con carga mucosa a gaseosa "
        + "intra luminal. Duodeno de "
        + "4.01 mm"
        + ", yeyuno de espesor mural conservado.",
      false,
      None,
      None,
      Pending,
      "img-3",
      Some([
        AbnormalValue("4.01 mm", 4.01, "mm", 2.5, 3.5)]),
      None)

  const Finding6: Finding :=
    Finding(
      "finding-6",
      "Intestino Grueso",
      0.89,
      "Colon presentó grosor de pared de 0.76 "
        + "mm en región evaluada, con contenido "
        + "fecal sólido en región descendente. "
        + "Ciego presenta un espesor mural "
        + "conservado.",
      "Colon presentó grosor de pared de 0.76 "
        + "mm en región evaluada, con contenido "
        + "fecal sólido en región descendente. "
        + "Ciego presenta un espesor mural "
        + "conservado.",
      false,
      None,
      None,
      Pending,
      "img-3",
      None,
      None)

  const Finding7: Finding :=
    Finding(
      "finding-7",
      "Páncreas",
      0.94,
      "Ecoestructura normal. Espesor 6.52 mm "
        + "por 13.48 mm, normal.",
      "Ecoestructura normal. Espesor 6.52 mm "
        + "por 13.48 mm, normal.",
      false,
      None,
      None,
      Accepted,
      "img-2",
      None,
      None)

  const Finding8: Finding :=
    Finding(
      "finding-8",
      "Riñón Izquierdo",
      0.9,
      "Tamaño "
        + "46.51 mm"
        + " por 27.53 mm, conservado. Con "
        + "contornos regulares. Corteza de "
        + "ecotextura homogénea de grano fino. "
        + "Relación cortico medular conservada. "
        + "Diferenciación cortico medular normal. "
        + "Pelvis renal conservada.",
      "Tamaño "
        + "46.51 mm"
        + " por 27.53 mm, conservado. Con "
        + "contornos regulares. Corteza de "
        + "ecotextura homogénea de grano fino. "
        + "Relación cortico medular conservada. "
        + "Diferenciación cortico medular normal. "
        + "Pelvis renal conservada.",
      false,
      None,
      None,
      Pending,
      "img-4",
      Some([
        AbnormalValue("46.51 mm", 46.51, "mm", 30.0, 45.0)]),
      None)

  const Finding9: Finding :=
    Finding(
      "finding-9",
      "Riñón Derecho",
      0.91,
      "Tamaño "
        + "45.16 mm"
        + " por "
        + "29.41 mm"
        + ", conservado. Con contornos regulares. "
        + "Corteza de ecotextura homogénea de "
        + "grano fino. Relación cortico medular "
        + "conservada. Diferenciación cortico "
        + "medular normal. Pelvis renal conservada.",
      "Tamaño "
        + "45.16 mm"
        + " por "
        + "29.41 mm"
        + ", conservado. Con contornos regulares. "
        + "Corteza de ecotextura homogénea de "
        + "grano fino. Relación cortico medular "
        + "conservada. Diferenciación cortico "
        + "medular normal. Pelvis renal conservada.",
      false,
      None,
      None,
      Pending,
      "img-4",
      Some([
        AbnormalValue("45.16 mm", 45.16, "mm", 30.0, 45.0),
        AbnormalValue("29.41 mm", 29.41, "mm", 20.0, 28.0)]),
      None)

  const Finding10: Finding :=
    Finding(
      "finding-10",
      "Glándulas Adrenales",
      0.72,
      "Adrenal izquierda aumentada de tamaño "
        + "con nódulo de "
        + "8.2 mm"
        + ". Adrenal derecha de tamaño conservado.",
      "Adrenal izquierda aumentada de tamaño "
        + "con nódulo de "
        + "8.2 mm"
        + ". Adrenal derecha de tamaño conservado.",
      false,
      None,
      None,
      Pending,
      "img-3",
      Some([
        AbnormalValue("8.2 mm", 8.2, "mm", 3.0, 6.0)]),
      None)

  const Finding11: Finding :=
    Finding(
      "finding-11",
      "Vejiga",
      0.96,
      "Distendida con contenido anecoico. "
        + "Paredes finas y lisas. Sin sedimento ni "
        + "masas intraluminales.",
      "Distendida con contenido anecoico. "
        + "Paredes finas y lisas. Sin sedimento ni "
        + "masas intraluminales.",
      false,
      None,
      None,
      Accepted,
      "img-4",
      None,
      None)

  const MockFindings: seq<Finding> := [
    Finding1, Finding2, Finding3, Finding4, Finding5, Finding6,
    Finding7, Finding8, Finding9, Finding10, Finding11]

  const MockImages: seq<StudyImage> := [
      StudyImage("img-1", "/images/image5.png", Ultrasound, "Hígado / Vesícula - Vista sagital"),
      StudyImage("img-2", "/images/image2.png", Ultrasound, "Bazo / Estómago - Vista transversal"),
      StudyImage("img-3", "/images/image3.png", Ultrasound, "Intestino / Adrenales - Vista coronal"),
      StudyImage("img-4", "/images/image4.png", Ultrasound, "Riñones / Vejiga - Vista longitudinal")]

  const MockReport: Report := Report("98facae1-e1d5-4029-829b-213be85b6676", MockPatientInfo, MockDiagnosis, MockFindings, MockImages)

  /** No two fixture findings share an id. */
  lemma MockIdsDistinct()
    ensures forall i, j :: 0 <= i < j < |MockFindings| ==> MockFindings[i].id != MockFindings[j].id
  {
  }

  /** Every fixture finding links to one of the four study images, so the card finds its thumbnail. */
  lemma MockLinksResolve()
    ensures |MockImages| == 4
    ensures forall k :: 0 <= k < |MockFindings| ==> ImageForFinding(MockImages, MockFindings[k]).Some?
  {
    assert MockImages[0].id == Finding1.linkedImageId;
    assert MockImages[0].id == Finding2.linkedImageId;
    assert MockImages[1].id == Finding3.linkedImageId;
    assert MockImages[1].id == Finding4.linkedImageId;
    assert MockImages[2].id == Finding5.linkedImageId;
    assert MockImages[2].id == Finding6.linkedImageId;
    assert MockImages[1].id == Finding7.linkedImageId;
    assert MockImages[3].id == Finding8.linkedImageId;
    assert MockImages[3].id == Finding9.linkedImageId;
    assert MockImages[2].id == Finding10.linkedImageId;
    assert MockImages[3].id == Finding11.linkedImageId;
  }

  /** Every finding not marked edited still shows its original text. */
  lemma MockUneditedTextsAgree()
    ensures forall k :: 0 <= k < |MockFindings| && !MockFindings[k].isEdited ==>
              MockFindings[k].currentText == MockFindings[k].originalText
  {
  }

  /** `finding-3` is the only finding marked edited. */
  lemma MockOnlyFinding3Edited()
    ensures forall k :: 0 <= k < |MockFindings| && MockFindings[k].isEdited ==> MockFindings[k] == Finding3
  {
  }

  /** `finding-3` is the one edited finding: its text differs, its status is `edited` and it is signed. */
  lemma MockEditedFinding()
    ensures Finding3.id == "finding-3" && Finding3.isEdited && Finding3.currentText != Finding3.originalText
    ensures Finding3.status == Edited && Signed(Finding3.editedBy)
  {
    assert Finding3.currentText[36] != Finding3.originalText[36];
  }

  /** Every abnormal value's text occurs in the current text of `f`. */
  predicate ValuesOccur(f: Finding)
  {
    f.abnormalValues.Some? ==>
      forall j :: 0 <= j < |f.abnormalValues.value| ==> Contains(f.currentText, f.abnormalValues.value[j].text)
  }

  // Where each abnormal value of the fixture starts in its finding's current text.

  lemma ValueAt2x0()
    ensures Finding2.abnormalValues.Some? && |Finding2.abnormalValues.value| == 1
    ensures OccursAt(Finding2.currentText, Finding2.abnormalValues.value[0].text, 59)
  {
  }

  lemma ValueAt3x0()
    ensures Finding3.abnormalValues.Some? && |Finding3.abnormalValues.value| == 3
    ensures OccursAt(Finding3.currentText, Finding3.abnormalValues.value[0].text, 35)
  {
  }

  lemma ValueAt3x1()
    ensures Finding3.abnormalValues.Some? && |Finding3.abnormalValues.value| == 3
    ensures OccursAt(Finding3.currentText, Finding3.abnormalValues.value[1].text, 245)
  {
  }

  lemma ValueAt3x2()
    ensures Finding3.abnormalValues.Some? && |Finding3.abnormalValues.value| == 3
    ensures OccursAt(Finding3.currentText, Finding3.abnormalValues.value[2].text, 255)
  {
  }

  lemma ValueAt4x0()
    ensures Finding4.abnormalValues.Some? && |Finding4.abnormalValues.value| == 1
    ensures OccursAt(Finding4.currentText, Finding4.abnormalValues.value[0].text, 115)
  {
  }

  lemma ValueAt5x0()
    ensures Finding5.abnormalValues.Some? && |Finding5.abnormalValues.value| == 1
    ensures OccursAt(Finding5.currentText, Finding5.abnormalValues.value[0].text, 141)
  {
  }

  lemma ValueAt8x0()
    ensures Finding8.abnormalValues.Some? && |Finding8.abnormalValues.value| == 1
    ensures OccursAt(Finding8.currentText, Finding8.abnormalValues.value[0].text, 7)
  {
  }

  lemma ValueAt9x0()
    ensures Finding9.abnormalValues.Some? && |Finding9.abnormalValues.value| == 2
    ensures OccursAt(Finding9.currentText, Finding9.abnormalValues.value[0].text, 7)
  {
  }

  lemma ValueAt9x1()
    ensures Finding9.abnormalValues.Some? && |Finding9.abnormalValues.value| == 2
    ensures OccursAt(Finding9.currentText, Finding9.abnormalValues.value[1].text, 20)
  {
  }

  lemma ValueAt10x0()
    ensures Finding10.abnormalValues.Some? && |Finding10.abnormalValues.value| == 1
    ensures OccursAt(Finding10.currentText, Finding10.abnormalValues.value[0].text, 52)
  {
  }

  lemma ValuesOccurIn2()
    ensures ValuesOccur(Finding2)
  {
    ValueAt2x0();
  }

  lemma ValuesOccurIn3()
    ensures ValuesOccur(Finding3)
  {
    ValueAt3x0();
    ValueAt3x1();
    ValueAt3x2();
  }

  lemma ValuesOccurIn4()
    ensures ValuesOccur(Finding4)
  {
    ValueAt4x0();
  }

  lemma ValuesOccurIn5()
    ensures ValuesOccur(Finding5)
  {
    ValueAt5x0();
  }

  lemma ValuesOccurIn8()
    ensures ValuesOccur(Finding8)
  {
    ValueAt8x0();
  }

  lemma ValuesOccurIn9()
    ensures ValuesOccur(Finding9)
  {
    ValueAt9x0();
    ValueAt9x1();
  }

  lemma ValuesOccurIn10()
    ensures ValuesOccur(Finding10)
  {
    ValueAt10x0();
  }

  /** In every fixture finding, each abnormal value's text occurs in the current text, so the highlighter can mark it. */
  lemma MockValuesOccur()
    ensures forall k :: 0 <= k < |MockFindings| ==> ValuesOccur(MockFindings[k])
  {
    ValuesOccurIn2();
    ValuesOccurIn3();
    ValuesOccurIn4();
    ValuesOccurIn5();
    ValuesOccurIn8();
    ValuesOccurIn9();
    ValuesOccurIn10();
  }

  /** The fixture diagnosis starts pending, with no baseline and no signature. */
  lemma MockDiagnosisPending()
    ensures MockDiagnosis.status == Pending && DiagnosisStatusOk(MockDiagnosis)
    ensures MockDiagnosis.originalItems.None? && MockDiagnosis.editedBy.None?
  {
  }

  /** In `finding-3`, "2.91 mm" lies inside its range [0, 3] and "11.05 mm" above its range [8, 10]. */
  lemma MockRangeExamples()
    ensures Finding3.abnormalValues.Some? && |Finding3.abnormalValues.value| == 3
    ensures var vs := Finding3.abnormalValues.value;
      vs[1].text == "2.91 mm" && !OutOfRange(vs[1])
      && vs[0].text == "11.05 mm" && OutOfRange(vs[0])
  {
  }

  /** The badges the fixture shows: signed edit, validated, and the AI tiers. */
  lemma MockBadges()
    ensures Badge(Finding3.confidence, Finding3.status, Finding3.editedBy) == EditedBadge
    ensures Badge(Finding4.confidence, Finding4.status, Finding4.editedBy) == Validated
    ensures Badge(Finding1.confidence, Finding1.status, Finding1.editedBy) == AiHigh
    ensures Badge(Finding2.confidence, Finding2.status, Finding2.editedBy) == AiMedium
  {
  }
}
